/** afs_BQueue, the claim loop of afs_BackgroundDaemon and afs_BRelease.  Each runs without
    interruption under afs_xbrs, so each is one step of RequestSlots; sleeping when nothing can
    be done is a step that changes nothing. */
module BackgroundDaemon {
  import opened Basics
  import opened RequestSlots

  /** struct brequest: its reference count, BSTARTED, timestamp and what to do. */
  datatype BRequest = BRequest(refCount: nat, started: bool, ts: int, opcode: int)

  /** What the model adds: the request's number and who still holds it. */
  datatype Book = Book(serial: nat, users: nat, owed: bool)

  class Requests {
    /** afs_brs and afs_brs_count. */
    const brs: array<BRequest>
    var count: int
    ghost var books: seq<Book>
    ghost var start: int
    ghost var queued: nat
    ghost var claimed: nat
    /** The opcodes of the requests, by their numbers. */
    ghost var asked: seq<int>

    static ghost function Entry(b: BRequest, k: Book): Slot
    {
      Slot(b.refCount, b.started, b.ts, k.serial, k.users, k.owed)
    }

    static ghost function Table(bs: seq<BRequest>, ks: seq<Book>): (r: seq<Slot>)
      requires |bs| == |ks|
      ensures |r| == |bs| && forall i :: 0 <= i < |bs| ==> r[i] == Entry(bs[i], ks[i])
    {
      seq(|bs|, i requires 0 <= i < |bs| => Entry(bs[i], ks[i]))
    }

    ghost function S(): (s: Sched)
      requires brs.Length == |books|
      reads this, brs
    {
      Sched(Table(brs[..], books), start, queued, claimed)
    }

    ghost predicate Valid()
      reads this, brs
    {
      brs.Length == |books| == NBRS && Inv(S()) && count == Wrap32(start + queued) && AsAsked(brs[..], books, asked, queued)
    }

    /** Every slot in use carries the opcode of its request. */
    static ghost predicate AsAsked(bs: seq<BRequest>, ks: seq<Book>, asked: seq<int>, queued: nat)
      requires |bs| == |ks|
    {
      |asked| == queued && forall i :: 0 <= i < |bs| && bs[i].refCount > 0 ==> ks[i].serial < queued && bs[i].opcode == asked[ks[i].serial]
    }

    constructor (count: int)
      requires -TWO31 <= count < TWO31
      ensures Valid() && S().queued == 0 && this.count == count && asked == []
      ensures forall i :: 0 <= i < NBRS ==> Free(S().slots[i])
    {
      brs := new BRequest[NBRS](_ => BRequest(0, false, 0, 0));
      books := seq(NBRS, _ => Book(0, 0, false));
      this.count, start, queued, claimed, asked := count, count, 0, 0, [];
    }

    /** One pass of afs_BQueue: takes the first free slot, or finds none. */
    method BQueue(opcode: int, ause: nat) returns (i: int)
      requires Valid()
      modifies this`count, this`queued, this`books, this`asked, brs
      ensures Valid()
      ensures i == -1 <==> forall j :: 0 <= j < NBRS ==> !Free(old(S()).slots[j])
      ensures i == -1 ==> S() == old(S()) && brs[..] == old(brs[..]) && asked == old(asked)
      ensures i != -1 ==> 0 <= i < NBRS && Free(old(S()).slots[i]) && S() == Enqueued(old(S()), i, ause)
      ensures i != -1 ==> brs[..] == old(brs[..])[i := BRequest(ause + 1, false, old(count), opcode)] && asked == old(asked) + [opcode]
      ensures i != -1 ==> forall j :: 0 <= j < i ==> !Free(old(S()).slots[j])
    {
      ghost var s := S();
      i := 0;
      while i < NBRS && brs[i].refCount != 0
        invariant 0 <= i <= NBRS && forall j :: 0 <= j < i ==> !Free(s.slots[j])
      {
        i := i + 1;
      }
      if i == NBRS {
        i := -1;
        return;
      }
      EnqueuedKeeps(s, i, ause);
      NextCount(s.start, s.queued);
      brs[i] := BRequest(ause + 1, false, count, opcode);
      books := books[i := Book(queued, ause, true)];
      count := Wrap32(count + 1);
      queued, asked := queued + 1, asked + [opcode];
      assert S().slots == Enqueued(s, i, ause).slots;
    }

    /** The search of the claim loop: the waiting request with the smallest timestamp, by
        32-bit comparison, is the one queued earliest; -1 when nothing waits. */
    method FindOldest() returns (i: int)
      requires Valid()
      ensures -1 <= i < NBRS
      ensures i == -1 <==> claimed == queued
      ensures i != -1 ==> Unclaimed(S().slots[i]) && S().slots[i].serial == claimed
    {
      i := -1;
      var minTs := 0;
      var k := 0;
      ghost var s := S();
      while k < NBRS
        invariant 0 <= k <= NBRS && -1 <= i < k
        invariant i != -1 ==> Unclaimed(s.slots[i]) && minTs == brs[i].ts
        invariant forall j :: 0 <= j < k && Unclaimed(s.slots[j]) ==> i != -1 && s.slots[i].serial <= s.slots[j].serial
      {
        assert s.slots[k] == Entry(brs[k], books[k]);
        if brs[k].refCount > 0 && !brs[k].started {
          if i != -1 { ComparisonIsAge(s, i, k); }
          if i == -1 || Wrap32(minTs - brs[k].ts) > 0 {
            i, minTs := k, brs[k].ts;
          }
        }
        k := k + 1;
      }
      assert claimed < queued ==> Waiting(s, claimed);
      assert i != -1 ==> SlotInv(s, s.slots[i]);
    }

    /** One pass of the claim loop: marks the oldest waiting request BSTARTED. */
    method Claim() returns (i: int)
      requires Valid()
      modifies this`claimed, brs
      ensures Valid()
      ensures i == -1 <==> old(claimed) == queued
      ensures i == -1 ==> S() == old(S()) && brs[..] == old(brs[..])
      ensures i != -1 ==> 0 <= i < NBRS && Unclaimed(old(S()).slots[i]) && S() == Claimed(old(S()), i)
      ensures i != -1 ==> S().slots[i].serial == old(claimed) < |asked| && brs[i].opcode == asked[old(claimed)]
      ensures i != -1 ==> brs[..] == old(brs[..])[i := old(brs[i]).(started := true)]
    {
      i := FindOldest();
      if i != -1 {
        ghost var s := S();
        ClaimedKeeps(s, i);
        brs[i] := brs[i].(started := true);
        claimed := claimed + 1;
        assert S().slots == Claimed(s, i).slots;
      }
    }

    /** afs_BRelease, by a user holding the request or by the daemon that claimed it. */
    method BRelease(i: nat, ghost byUser: bool)
      requires Valid() && i < NBRS && brs[i].refCount > 0
      requires if byUser then books[i].users > 0 else brs[i].started && books[i].owed
      modifies this`books, brs
      ensures Valid() && S() == Released(old(S()), i, byUser)
      ensures var b := old(brs[i]);
              brs[..] == old(brs[..])[i := b.(refCount := b.refCount - 1, started := b.started && b.refCount > 1)]
    {
      ghost var s := S();
      ReleasedKeeps(s, i, byUser);
      brs[i] := brs[i].(refCount := brs[i].refCount - 1);
      if brs[i].refCount <= 0 {
        brs[i] := brs[i].(started := false);
      }
      ghost var k := books[i];
      books := books[i := k.(users := if byUser then k.users - 1 else k.users, owed := byUser && k.owed)];
      assert S().slots == Released(s, i, byUser).slots;
    }
  }
}
