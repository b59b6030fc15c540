/** The circular, intrusive queues of the cache manager (struct afs_q and the
    QInit/QAdd/QRemove/QCat/QEmpty macros).  A queue is a head node linked in a ring with
    its members; every operation is proved against the sequence of members met when
    walking the ring along `next` from the head. */
module Queues {
  import opened Seqs

  /** One link.  `id` names the structure the link is embedded in (CBQTOV and QEntry
      recover it in the source by pointer arithmetic). */
  class AfsQ {
    const id: nat
    var next: AfsQ?
    var prev: AfsQ?

    /** QZero: a link that is on no queue. */
    constructor (id: nat)
      ensures this.id == id && Unlinked()
    {
      this.id := id;
      next, prev := null, null;
    }

    predicate Unlinked()
      reads this
    {
      next == null && prev == null
    }
  }

  /** Each node of r points at the next one, and that one back at it. */
  ghost predicate Linked(r: seq<AfsQ>)
    reads r
  {
    forall i, j :: 0 <= i < |r| && 0 <= j < |r| && j == i + 1 ==> r[i].next == r[j] && r[j].prev == r[i]
  }

  /** h heads a well formed ring whose members, in `next` order, are exactly s. */
  ghost predicate Ring(h: AfsQ, s: seq<AfsQ>)
    reads h, s
  {
    h !in s && Distinct(s) && Linked([h] + s + [h])
  }

  method QInit(q: AfsQ)
    modifies q
    ensures Ring(q, [])
  {
    q.prev, q.next := q, q;
  }

  /** The neighbours of the k-th member of a ring. */
  lemma Neighbours(h: AfsQ, s: seq<AfsQ>, k: nat)
    requires Ring(h, s) && k < |s|
    ensures s[k].next == (if k + 1 < |s| then s[k + 1] else h)
    ensures s[k].prev == (if k > 0 then s[k - 1] else h)
  {
    var r := [h] + s + [h];
    assert r[k + 1] == s[k] && r[k] == (if k > 0 then s[k - 1] else h);
    assert r[k + 2] == (if k + 1 < |s| then s[k + 1] else h);
  }

  /** The neighbours of the head of a ring. */
  lemma Ends(h: AfsQ, s: seq<AfsQ>)
    requires Ring(h, s)
    ensures h.next == (if s != [] then s[0] else h)
    ensures h.prev == (if s != [] then s[|s| - 1] else h)
  {
    var r := [h] + s + [h];
    assert r[0] == h && r[1] == (if s != [] then s[0] else h);
    assert r[|s| + 1] == h && r[|s|] == (if s != [] then s[|s| - 1] else h);
  }

  /** Adds e at the front, right after the head. */
  method QAdd(q: AfsQ, e: AfsQ, ghost s: seq<AfsQ>)
    requires Ring(q, s) && e != q && e !in s
    modifies q, q.next, e
    ensures Ring(q, [e] + s)
  {
    Ends(q, s);
    e.next := q.next;
    e.prev := q;
    q.next.prev := e;
    q.next := e;
    ghost var r := [q] + s + [q];
    ghost var t := [q] + ([e] + s) + [q];
    assert forall i :: 1 < i < |t| ==> t[i] == r[i - 1];
  }

  /** Unlinks e, the k-th member, without naming the queue. */
  method QRemove(e: AfsQ, ghost h: AfsQ, ghost s: seq<AfsQ>, ghost k: nat)
    requires Ring(h, s) && k < |s| && s[k] == e
    modifies e, e.next, e.prev
    ensures Ring(h, s[..k] + s[k + 1..]) && e.Unlinked()
  {
    Neighbours(h, s, k);
    e.next.prev := e.prev;
    e.prev.next := e.next;
    e.prev := null;
    e.next := null;
    ghost var r := [h] + s + [h];
    ghost var t := [h] + (s[..k] + s[k + 1..]) + [h];
    assert forall i :: 0 <= i < |t| ==> t[i] == r[if i <= k then i else i + 1];
    forall i, j | 0 <= i < |t| && 0 <= j < |t| && j == i + 1
      ensures t[i].next == t[j] && t[j].prev == t[i]
    {
      if j <= k {
        assert old(r[i].next) == r[j] && old(r[j].prev) == r[i];
      } else if i > k {
        assert old(r[i + 1].next) == r[j + 1] && old(r[j + 1].prev) == r[i + 1];
      }
    }
  }

  /** Moves every member of q1, in order, behind the members of q2 and empties q1. */
  method QCat(q1: AfsQ, q2: AfsQ, ghost s1: seq<AfsQ>, ghost s2: seq<AfsQ>)
    requires Ring(q1, s1) && Ring(q2, s2) && s1 != []
    requires q1 != q2 && q1 !in s2 && q2 !in s1
    requires forall x :: x in s1 ==> x !in s2
    modifies q1, q2, q1.next, q1.prev, q2.prev
    ensures Ring(q1, []) && Ring(q2, s2 + s1)
  {
    Ends(q1, s1);
    Ends(q2, s2);
    q2.prev.next := q1.next;
    q1.next.prev := q2.prev;
    q1.prev.next := q2;
    q2.prev := q1.prev;
    q1.next := q1;
    q1.prev := q1;
    ghost var r1, r2 := [q1] + s1 + [q1], [q2] + s2 + [q2];
    ghost var t := [q2] + (s2 + s1) + [q2];
    assert forall i :: 0 <= i <= |s2| ==> t[i] == r2[i] && (r2[i] == q2 || r2[i] in s2);
    assert forall i :: |s2| < i <= |s2| + |s1| ==> t[i] == r1[i - |s2|] && t[i] in s1;
    forall i, j | 0 <= i < |t| && 0 <= j < |t| && j == i + 1
      ensures t[i].next == t[j] && t[j].prev == t[i]
    {
      if j <= |s2| {
        assert old(r2[i].next) == r2[j] && old(r2[j].prev) == r2[i];
        assert r2[i] != r2[|s2|] && r2[j] != q2;
      } else if |s2| < i && j < |t| - 1 {
        assert old(r1[i - |s2|].next) == r1[j - |s2|] && old(r1[j - |s2|].prev) == r1[i - |s2|];
        assert r1[i - |s2|] != r1[|s1|] && r1[j - |s2|] != r1[1];
      }
    }
    DistinctConcat(s2, s1);
  }

  method QEmpty(q: AfsQ, ghost s: seq<AfsQ>) returns (r: bool)
    requires Ring(q, s)
    ensures r <==> s == []
  {
    Ends(q, s);
    r := q.prev == q;
  }
}
