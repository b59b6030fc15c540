/** The dirty list and the loop of afs_ResyncDisconFiles, step by step. */
module DirtyList {
  import opened Seqs
  import opened Resync
  import opened ResyncProgress
  import opened ResyncSends

  class Discon {
    const g: Graph
    var queue: seq<nat>
    var flags: map<nat, set<Flag>>
    ghost var log: seq<Event>

    constructor (g: Graph)
      ensures this.g == g && Listed(S()) && queue == [] && log == []
    {
      this.g, queue, flags, log := g, [], map[], [];
    }

    function S(): State
      reads this`queue, this`flags
    {
      State(queue, flags)
    }

    function DirtyFlags(v: nat): set<Flag>
      reads this`flags
    {
      if v in flags then flags[v] else {}
    }

    /** afs_DisconAddDirty. */
    method AddDirty(v: nat, op: Flag)
      requires Listed(S())
      modifies this`queue, this`flags
      ensures Listed(S()) && queue == old(if v in queue then queue else queue + [v])
      ensures forall w :: Flags(S(), w) == old(Flags(S(), w)) + if w == v then {op} else {}
    {
      if DirtyFlags(v) == {} {
        DistinctConcat(queue, [v]);
        queue := queue + [v];
      }
      flags := flags[v := DirtyFlags(v) + {op}];
      assert op in Flags(S(), v);
      assert forall w :: w != v ==> Flags(S(), w) == old(Flags(S(), w));
    }

    /** afs_CheckDeletedChildren. */
    method CheckDeletedChildren(v: nat) returns (count: nat)
      ensures count > 0 <==> exists w :: w in Kids(g, v) && Dirty(S(), w)
    {
      count := 0;
      var todo := Kids(g, v);
      while todo != {}
        invariant todo <= Kids(g, v)
        invariant count > 0 <==> exists w :: w in Kids(g, v) && w !in todo && Dirty(S(), w)
        decreases |todo|
      {
        var w :| w in todo;
        if DirtyFlags(w) != {} {
          count := count + 1;
        }
        todo := todo - {w};
      }
    }

    /** afs_GetParentVCache. */
    method GetParentVCache(v: nat, c: Codes) returns (code: int)
      ensures code == ParentCode(g, S(), v, c)
    {
      if c.name != 0 {
        return c.name;
      }
      if v !in g.parent {
        return ENETDOWN;
      }
      code := if Create in DirtyFlags(g.parent[v]) then EAGAIN else 0;
    }

    /** afs_ProcessOpRemove. */
    method ProcessOpRemove(v: nat, c: Codes) returns (code: int)
      modifies this`log
      ensures var t := RemoveTurn(g, S(), v, c); code == t.code && log == old(log) + t.log
    {
      code := GetParentVCache(v, c);
      if code != 0 {
        return;
      }
      if v in g.dirs {
        var count := CheckDeletedChildren(v);
        if count > 0 {
          return EAGAIN;
        }
      }
      code := c.remove;
      log := log + [RemoveRpc(v, code)];
    }

    /** afs_ProcessOpCreate, as far as the queue is concerned. */
    method ProcessOpCreate(v: nat, c: Codes) returns (code: int)
      modifies this`log
      ensures var t := CreateTurn(g, S(), v, c); code == t.code && log == old(log) + t.log
    {
      code := GetParentVCache(v, c);
      if code != 0 {
        return;
      }
      code := c.create;
      log := log + [CreateRpc(v, g.parent[v], code)];
    }

    /** The rest of an entry's turn, once it exists on the server. */
    method SendChanges(v: nat, c: Codes) returns (code: int)
      modifies this`log
      ensures var t := ChangeTurn(Flags(S(), v), v, c); code == t.code && log == old(log) + t.log
    {
      if Rename in DirtyFlags(v) {
        code := c.rename;
        log := log + [RenameRpc(v, code)];
        if code != 0 {
          return;
        }
      }
      code := c.fetch;
      if code != 0 {
        return;
      }
      if c.sends || Created in DirtyFlags(v) {
        code := c.store;
        log := log + [StoreRpc(v, code)];
      }
    }

    /** The calls for one entry; on the way it may turn from to-be-created into created. */
    method ReplayOne(v: nat, c: Codes) returns (code: int)
      requires v in flags
      modifies this`log, this`flags
      ensures var t := Replay(g, old(S()), v, c);
              code == t.code && log == old(log) + t.log && flags == old(flags)[v := t.flags]
    {
      assert flags == flags[v := flags[v]];
      if Remove in DirtyFlags(v) {
        code := ProcessOpRemove(v, c);
        return;
      }
      if Create in DirtyFlags(v) {
        code := ProcessOpCreate(v, c);
        if code != 0 {
          return;
        }
        flags := flags[v := DirtyFlags(v) - {Create} + {Created}];
      }
      code := SendChanges(v, c);
    }

    /** One iteration of the loop. */
    method NextFile(c: Codes, ghost y: Sys) returns (code: int)
      requires Listed(S()) && Running(y) && y.s == S() && y.log == log
      modifies this
      ensures Sys(S(), log, code) == Step(g, y, c)
    {
      var v := queue[0];
      assert Dirty(S(), v);
      code := ReplayOne(v, c);
      if code == 0 {
        flags := flags[v := {}];
        queue := queue[1..];
        log := log + [Done(v)];
      } else if code == EAGAIN {
        queue := queue[1..] + [v];
      }
    }

    /** afs_ResyncDisconFiles: ends, whatever the calls return short of EAGAIN, with everything
        replayed or at the first failure. */
    method ResyncDisconFiles(codes: nat -> Codes) returns (code: int, turns: nat)
      requires Listed(S()) && Acyclic(g, S()) && log == []
      requires forall n :: NoAgain(codes(n))
      modifies this
      ensures Listed(S()) && Acyclic(g, S())
      ensures Sys(S(), log, code) == Run(g, old(S()), Take(codes, turns))
      ensures code == 0 <==> queue == []
      ensures HaveParents(g, old(S())) && (forall n :: Succeeds(codes(n))) ==> queue == []
      ensures (forall n :: codes(n).sends) ==>
                forall v :: old(Dirty(S(), v)) && v !in queue && Remove !in old(Flags(S(), v)) ==>
                  StoreRpc(v, 0) in log && Done(v) in log
      ensures (forall n :: !codes(n).sends) ==> forall e :: e in log && e.StoreRpc? ==> IsNew(old(Flags(S(), e.v)))
    {
      code, turns := 0, 0;
      ghost var s0 := S();
      while queue != [] && (code == 0 || code == EAGAIN)
        invariant InRun(g, s0, codes, turns, Sys(S(), log, code))
        decreases code == 0 || code == EAGAIN, |queue|, Deferred(g, S(), queue)
      {
        ghost var y := Sys(S(), log, code);
        NextTurn(g, s0, codes, turns, y);
        code := NextFile(codes(turns), y);
        turns := turns + 1;
      }
      AllDone(g, old(S()), codes, turns);
      AllSent(g, old(S()), codes, turns);
    }
  }

  /** y is where the loop stands after n turns. */
  ghost predicate InRun(g: Graph, s0: State, codes: nat -> Codes, n: nat, y: Sys)
  {
    && y == Run(g, s0, Take(codes, n)) && Listed(y.s) && Acyclic(g, y.s)
    && (y.s.queue == [] ==> y.code == 0) && (y.code == 0 ==> y.s.queue == [] || Running(y))
  }

  lemma NextTurn(g: Graph, s0: State, codes: nat -> Codes, n: nat, y: Sys)
    requires InRun(g, s0, codes, n, y) && Running(y) && NoAgain(codes(n))
    ensures var z := Step(g, y, codes(n));
            && InRun(g, s0, codes, n + 1, z)
            && (z.code == 0 ==> |z.s.queue| < |y.s.queue|)
            && (z.code == EAGAIN ==> |z.s.queue| == |y.s.queue| && Deferred(g, z.s, z.s.queue) < Deferred(g, y.s, y.s.queue))
  {
    TurnEnds(g, y, codes(n));
    RunTake(g, s0, codes, n);
  }

  lemma RunTake(g: Graph, s: State, codes: nat -> Codes, n: nat)
    ensures Run(g, s, Take(codes, n + 1)) == Step(g, Run(g, s, Take(codes, n)), codes(n))
  {
  }

  lemma AllDone(g: Graph, s: State, codes: nat -> Codes, n: nat)
    requires Listed(s) && Acyclic(g, s) && !Running(Run(g, s, Take(codes, n)))
    ensures HaveParents(g, s) && (forall n :: Succeeds(codes(n))) ==> Run(g, s, Take(codes, n)).s.queue == []
  {
    if HaveParents(g, s) && forall n :: Succeeds(codes(n)) {
      RunCloser(g, s, Take(codes, n));
    }
  }

  lemma AllSent(g: Graph, s: State, codes: nat -> Codes, n: nat)
    requires Listed(s)
    ensures var y := Run(g, s, Take(codes, n));
            && ((forall n :: codes(n).sends) ==>
                  forall v :: Dirty(s, v) && v !in y.s.queue && Remove !in Flags(s, v) ==> StoreRpc(v, 0) in y.log && Done(v) in y.log)
            && ((forall n :: !codes(n).sends) ==> forall e :: e in y.log && e.StoreRpc? ==> IsNew(Flags(s, e.v)))
  {
    var cs := Take(codes, n);
    var y := Run(g, s, cs);
    if forall n :: codes(n).sends {
      AllStored(g, s, cs);
      forall v | Dirty(s, v) && v !in y.s.queue && Remove !in Flags(s, v) ensures StoreRpc(v, 0) in y.log && Done(v) in y.log {
        GoneIsDone(g, s, cs, v);
        var k :| 0 <= k < |y.log| && y.log[k] == Done(v);
        assert StoreRpc(v, 0) in y.log[..k];
      }
    }
    if forall n :: !codes(n).sends {
      NoneStored(g, s, cs);
    }
  }

  function Take(codes: nat -> Codes, n: nat): (cs: seq<Codes>)
    ensures |cs| == n && forall i :: 0 <= i < n ==> cs[i] == codes(i)
  {
    if n == 0 then [] else Take(codes, n - 1) + [codes(n - 1)]
  }
}
