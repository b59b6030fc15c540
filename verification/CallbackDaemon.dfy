/** The callback part of the afs_Daemon loop, driving the heap queue. */
module CallbackDaemon {
  import opened CallbackWheel
  import opened CallbackQueue
  import opened CallbackRuns

  class Daemon {
    const queue: CBQueue
    /** CBQ_LIMIT; never below the number of vcaches. */
    const limit: nat
    var lastCBSlotBump: nat

    constructor (queue: CBQueue, limit: nat, now: nat)
      ensures this.queue == queue && this.limit == limit && lastCBSlotBump == now
    {
      this.queue, this.limit, lastCBSlotBump := queue, limit, now;
    }

    ghost predicate Valid()
      reads this, queue, queue.nodes
    {
      queue.Valid() && |queue.vcaches| <= limit
    }

    /** The queue and lastCBSlotBump as the run model sees them, completed with the clock
        readings that only the model keeps. */
    ghost function View(clock: nat, bumpTime: nat, lastTest: nat, lastCheck: nat, upTime: nat): (s: Sys)
      reads this, queue, queue.vcaches, queue.volumes.Values
    {
      Sys(queue.Abs(), clock, bumpTime, lastCBSlotBump, lastTest, lastCheck, upTime)
    }

    /** The unconditional CheckCallbacks(20) that opens each round is the DaemonCheck step. */
    method Check(now: nat, ghost s: Sys)
      requires Valid() && s == View(s.clock, s.bumpTime, s.lastTest, s.lastCheck, s.upTime)
      modifies queue, queue.nodes, queue.vcaches
      ensures Valid() && WellFormed(s.w)
      ensures Step(s, DaemonCheck(now)) == View(now, s.bumpTime, s.lastTest, now, s.upTime)
    {
      queue.AbsWellFormed();
      BucketNoLongerThanTable(queue.Abs(), queue.base);
      queue.CheckCallbacks(now, LOOKAHEAD, limit, now);
    }

    /** BumpBase, and CheckCallbacks(20) if the base moved. */
    method Advance(now: nat, now2: nat)
      requires Valid()
      modifies queue, queue.nodes, queue.vcaches
      ensures Valid() && WellFormed(old(queue.Abs())) && WellFormed(BumpBase(old(queue.Abs()), now))
      ensures var w := old(queue.Abs());
              queue.Abs() == if BumpDue(w, now) then CheckCallbacks(BumpBase(w, now), now2, LOOKAHEAD) else w
    {
      queue.AbsWellFormed();
      BumpBaseEffect(queue.Abs(), now);
      var didbump := queue.BumpBase(now);
      if didbump > 0 {
        BucketNoLongerThanTable(queue.Abs(), queue.base);
        queue.CheckCallbacks(now2, LOOKAHEAD, limit, now2);
      }
    }

    /** The bump test, the bump with its own reading of the clock, and the extra check after it are
        the DaemonBump step. */
    method Bump(now: nat, mid: nat, now2: nat, ghost s: Sys)
      requires Valid() && s == View(s.clock, s.bumpTime, s.lastTest, s.lastCheck, s.upTime)
      modifies this, queue, queue.nodes, queue.vcaches
      ensures Valid() && WellFormed(s.w)
      ensures var r := Step(s, DaemonBump(now, mid, now2)); r == View(now2, r.bumpTime, now, r.lastCheck, s.upTime)
    {
      queue.AbsWellFormed();
      if lastCBSlotBump + CBHTSLOTLEN < now {
        lastCBSlotBump := now;
        Advance(mid, now2);
      }
    }
  }
}
