/** When afs_ResyncDisconFiles empties the dirty list: exactly when nothing waits for itself. */
module ResyncProgress {
  import opened Seqs
  import opened Resync

  /** Each waits for the next. */
  ghost predicate Chain(g: Graph, s: State, p: seq<nat>)
  {
    forall i, j :: 0 <= i < j < |p| && j == i + 1 ==> Waits(g, s, p[i], p[j])
  }

  ghost predicate Cycle(g: Graph, s: State, p: seq<nat>)
  {
    |p| >= 2 && p[0] == p[|p| - 1] && Chain(g, s, p)
  }

  ghost predicate Acyclic(g: Graph, s: State)
  {
    forall p :: !Cycle(g, s, p)
  }

  /** Everything that is to be created or removed has a parent that can be found. */
  ghost predicate HaveParents(g: Graph, s: State)
  {
    forall v :: v in s.queue && (Create in Flags(s, v) || Remove in Flags(s, v)) ==> v in g.parent
  }

  // ---------------------------------------------------------------- someone can always go

  lemma {:induction false} LongChain(g: Graph, s: State, n: nat) returns (p: seq<nat>)
    requires Listed(s) && s.queue != [] && forall v :: v in s.queue ==> Blocked(g, s, v)
    ensures |p| == n + 1 && Chain(g, s, p) && forall x :: x in p ==> x in s.queue
  {
    if n == 0 {
      p := [s.queue[0]];
    } else {
      var q := LongChain(g, s, n - 1);
      assert q[|q| - 1] in q;
      var w :| Waits(g, s, q[|q| - 1], w);
      p := q + [w];
    }
  }

  lemma SomeoneFree(g: Graph, s: State)
    requires Listed(s) && Acyclic(g, s) && s.queue != []
    ensures exists v :: v in s.queue && !Blocked(g, s, v)
  {
    if forall v :: v in s.queue ==> Blocked(g, s, v) {
      var p := LongChain(g, s, |s.queue|);
      if Distinct(p) {
        FitsIn(p, s.queue);
      } else {
        var i, j :| 0 <= i < j < |p| && p[i] == p[j];
        assert Cycle(g, s, p[i..j + 1]);
      }
    }
  }

  /** How many entries must be deferred before one is reached that need not be. */
  ghost function Deferred(g: Graph, s: State, q: seq<nat>): (n: nat)
    ensures n <= |q|
    ensures (exists v :: v in q && !Blocked(g, s, v)) ==> n < |q| && !Blocked(g, s, q[n])
  {
    if q == [] || !Blocked(g, s, q[0]) then 0 else 1 + Deferred(g, s, q[1..])
  }

  lemma {:induction false} DeferredLonger(g: Graph, s: State, q: seq<nat>, v: nat)
    requires Deferred(g, s, q) < |q|
    ensures Deferred(g, s, q + [v]) == Deferred(g, s, q)
    decreases |q|
  {
    if Blocked(g, s, q[0]) {
      DeferredLonger(g, s, q[1..], v);
      assert (q + [v])[1..] == q[1..] + [v];
    }
  }

  // ---------------------------------------------------------------- nothing new to wait for

  lemma StepShrinks(g: Graph, y: Sys, c: Codes, v: nat, w: nat)
    requires Listed(y.s) && Waits(g, Step(g, y, c).s, v, w)
    ensures Waits(g, y.s, v, w)
  {
  }

  lemma StepListed(g: Graph, y: Sys, c: Codes)
    requires Listed(y.s)
    ensures Listed(Step(g, y, c).s)
  {
    if Running(y) {
      assert Dirty(y.s, y.s.queue[0]);
      AfterListed(y.s, Replay(g, y.s, y.s.queue[0], c));
    }
  }

  lemma StepAcyclic(g: Graph, y: Sys, c: Codes)
    requires Listed(y.s) && Acyclic(g, y.s)
    ensures Acyclic(g, Step(g, y, c).s)
  {
    forall p ensures !Cycle(g, Step(g, y, c).s, p) {
      if Cycle(g, Step(g, y, c).s, p) {
        forall i, j | 0 <= i < j < |p| && j == i + 1 ensures Waits(g, y.s, p[i], p[j]) {
          StepShrinks(g, y, c, p[i], p[j]);
        }
        assert Cycle(g, y.s, p);
      }
    }
  }

  // ---------------------------------------------------------------- how long it takes

  /** Turns that suffice for n entries: n for the first to finish, n - 1 for the next, ... */
  function Turns(n: nat): nat
  {
    if n == 0 then 0 else n + Turns(n - 1)
  }

  /** Turns that suffice from here. */
  ghost function ToGo(g: Graph, s: State): nat
  {
    if s.queue == [] then 0 else Deferred(g, s, s.queue) + 1 + Turns(|s.queue| - 1)
  }

  /** A turn that defers brings the first entry that can go one place nearer. */
  lemma DeferCloser(g: Graph, s: State, t: Turn)
    requires Listed(s) && s.queue != [] && Blocked(g, s, s.queue[0]) && t.code == EAGAIN && t.flags == Flags(s, s.queue[0])
    requires exists v :: v in s.queue && !Blocked(g, s, v)
    ensures |After(s, t).queue| == |s.queue|
    ensures Deferred(g, After(s, t), After(s, t).queue) < Deferred(g, s, s.queue)
  {
    var v, rest := s.queue[0], s.queue[1..];
    assert Dirty(s, v) && s.flags[v := t.flags] == s.flags;
    var w :| w in s.queue && !Blocked(g, s, w);
    assert w in rest;
    DeferredLonger(g, s, rest, v);
    assert After(s, t) == s.(queue := rest + [v]);
    SameFlags(g, s, After(s, t), rest + [v]);
  }

  lemma {:induction false} SameFlags(g: Graph, s: State, r: State, q: seq<nat>)
    requires s.flags == r.flags
    ensures Deferred(g, s, q) == Deferred(g, r, q)
    decreases |q|
  {
    if q != [] {
      assert forall w :: Waits(g, s, q[0], w) == Waits(g, r, q[0], w);
      SameFlags(g, s, r, q[1..]);
    }
  }

  /** Every turn counts. */
  lemma StepCloser(g: Graph, y: Sys, c: Codes)
    requires Listed(y.s) && Acyclic(g, y.s) && HaveParents(g, y.s) && Succeeds(c) && (y.code == 0 || y.code == EAGAIN)
    requires y.s.queue != []
    ensures var z := Step(g, y, c); z.code in {0, EAGAIN} && ToGo(g, z.s) < ToGo(g, y.s) && HaveParents(g, z.s)
    ensures Step(g, y, c).s.queue == [] ==> Step(g, y, c).code == 0
  {
    var v := y.s.queue[0];
    var t := Replay(g, y.s, v, c);
    SomeoneFree(g, y.s);
    TurnOutcome(g, y.s, v, c);
    if Blocked(g, y.s, v) {
      DeferCloser(g, y.s, t);
    } else if |y.s.queue| > 1 {
      StepListed(g, y, c);
      StepAcyclic(g, y, c);
      SomeoneFree(g, Step(g, y, c).s);
    }
  }

  /** Even if calls may fail, a deferral brings the loop nearer to an entry that can go. */
  lemma TurnEnds(g: Graph, y: Sys, c: Codes)
    requires Listed(y.s) && Acyclic(g, y.s) && NoAgain(c) && Running(y)
    ensures var z := Step(g, y, c);
            && Listed(z.s) && Acyclic(g, z.s) && (z.s.queue == [] ==> z.code == 0)
            && (z.code == 0 ==> |z.s.queue| < |y.s.queue|)
            && (z.code == EAGAIN ==> |z.s.queue| == |y.s.queue| && Deferred(g, z.s, z.s.queue) < Deferred(g, y.s, y.s.queue))
  {
    StepListed(g, y, c);
    StepAcyclic(g, y, c);
    SomeoneFree(g, y.s);
    TurnOutcome(g, y.s, y.s.queue[0], c);
    if Step(g, y, c).code == EAGAIN {
      DeferCloser(g, y.s, Replay(g, y.s, y.s.queue[0], c));
    }
  }

  lemma {:induction false} RunCloser(g: Graph, s: State, cs: seq<Codes>)
    requires Listed(s) && Acyclic(g, s) && HaveParents(g, s) && forall c :: c in cs ==> Succeeds(c)
    ensures var y := Run(g, s, cs);
            && Listed(y.s) && Acyclic(g, y.s) && HaveParents(g, y.s) && y.code in {0, EAGAIN}
            && ToGo(g, y.s) <= (if |cs| > ToGo(g, s) then 0 else ToGo(g, s) - |cs|)
            && (y.s.queue == [] ==> y.code == 0)
    decreases |cs|
  {
    if cs != [] {
      var before, c := cs[..|cs| - 1], cs[|cs| - 1];
      RunCloser(g, s, before);
      var y := Run(g, s, before);
      StepListed(g, y, c);
      StepAcyclic(g, y, c);
      if y.s.queue != [] {
        StepCloser(g, y, c);
      }
    }
  }

  lemma {:induction false} RunNoLonger(g: Graph, s: State, cs: seq<Codes>)
    ensures |Run(g, s, cs).s.queue| <= |s.queue|
    decreases |cs|
  {
    if cs != [] {
      RunNoLonger(g, s, cs[..|cs| - 1]);
    }
  }

  /** Every full rotation finishes at least one entry. */
  lemma RotationFinishesOne(g: Graph, s: State, cs: seq<Codes>)
    requires Listed(s) && Acyclic(g, s) && HaveParents(g, s) && forall c :: c in cs ==> Succeeds(c)
    requires |cs| == |s.queue| > 0
    ensures |Run(g, s, cs).s.queue| < |s.queue|
  {
    SomeoneFree(g, s);
    RunCloser(g, s, cs);
    RunNoLonger(g, s, cs);
  }

  /** With a cycle, those on it are deferred for ever, whatever the calls return. */
  lemma StepKeepsCycle(g: Graph, y: Sys, c: Codes, p: seq<nat>)
    requires Listed(y.s) && Cycle(g, y.s, p)
    ensures Cycle(g, Step(g, y, c).s, p)
  {
    if Running(y) {
      var v, z := y.s.queue[0], Step(g, y, c);
      TurnOutcome(g, y.s, v, c);
      assert Dirty(y.s, v);
      AfterListed(y.s, Replay(g, y.s, v, c));
      forall i | 0 <= i < |p| ensures Flags(z.s, p[i]) == Flags(y.s, p[i]) {
        var k := if i == |p| - 1 then 0 else i;
        assert p[k] == p[i] && Waits(g, y.s, p[k], p[k + 1]);
        assert Blocked(g, y.s, p[i]);
      }
    }
  }

  lemma {:induction false} CycleStays(g: Graph, s: State, cs: seq<Codes>, p: seq<nat>)
    requires Listed(s) && Cycle(g, s, p)
    ensures var y := Run(g, s, cs); Listed(y.s) && Cycle(g, y.s, p) && p[0] in y.s.queue
    decreases |cs|
  {
    if cs != [] {
      var before, c := cs[..|cs| - 1], cs[|cs| - 1];
      CycleStays(g, s, before, p);
      StepListed(g, Run(g, s, before), c);
      StepKeepsCycle(g, Run(g, s, before), c, p);
    }
    assert Waits(g, Run(g, s, cs).s, p[0], p[1]);
  }

  /** The list is emptied, within n + (n - 1) + ... + 1 turns, if and only if no entry waits for
      itself through others. */
  lemma EmptiesIffAcyclic(g: Graph, s: State, cs: seq<Codes>)
    requires Listed(s) && HaveParents(g, s) && |cs| >= Turns(|s.queue|) && forall c :: c in cs ==> Succeeds(c)
    ensures Acyclic(g, s) <==> Run(g, s, cs).s.queue == []
    ensures Acyclic(g, s) ==> Run(g, s, cs).code == 0
  {
    if Acyclic(g, s) {
      if s.queue != [] {
        SomeoneFree(g, s);
      }
      RunCloser(g, s, cs);
    } else {
      var p :| Cycle(g, s, p);
      CycleStays(g, s, cs, p);
    }
  }

  // ---------------------------------------------------------------- directory trees

  /** v comes before w in the order removals (by height), then the rest (by depth). */
  predicate Above(s: State, depth: nat -> nat, height: nat -> nat, v: nat, w: nat)
  {
    if Remove in Flags(s, v) then
      Remove !in Flags(s, w) || height(w) < height(v)
    else
      Remove !in Flags(s, w) && depth(w) < depth(v)
  }

  lemma {:induction false} ChainFalls(g: Graph, s: State, depth: nat -> nat, height: nat -> nat, p: seq<nat>)
    requires NoBoth(s) && Chain(g, s, p) && |p| >= 2
    requires forall v :: v in g.parent ==> depth(g.parent[v]) < depth(v)
    requires forall v, w :: w in Kids(g, v) ==> height(w) < height(v)
    ensures Above(s, depth, height, p[0], p[|p| - 1])
    decreases |p|
  {
    assert Waits(g, s, p[0], p[1]);
    if |p| > 2 {
      assert Chain(g, s, p[1..]);
      ChainFalls(g, s, depth, height, p[1..]);
    }
  }

  /** Nothing waits for itself when parents and shadows both form trees and nothing made locally
      is also marked as removed. */
  lemma TreesAcyclic(g: Graph, s: State, depth: nat -> nat, height: nat -> nat)
    requires NoBoth(s)
    requires forall v :: v in g.parent ==> depth(g.parent[v]) < depth(v)
    requires forall v, w :: w in Kids(g, v) ==> height(w) < height(v)
    ensures Acyclic(g, s)
  {
    forall p ensures !Cycle(g, s, p) {
      if Cycle(g, s, p) {
        ChainFalls(g, s, depth, height, p);
      }
    }
  }

  /** A new directory that is also marked as removed, with a new file in its shadow: each waits
      for the other. */
  lemma BothMayBlock() returns (g: Graph, s: State)
    ensures Listed(s) && HaveParents(g, s) && g.parent == map[1 := 0, 2 := 1] && g.shadow == map[1 := {2}]
    ensures !Acyclic(g, s)
  {
    g := Graph(map[1 := 0, 2 := 1], {0, 1}, map[1 := {2}]);
    s := State([1, 2], map[1 := {Create, Remove}, 2 := {Create}]);
    assert Create in Flags(s, 1) && Create in Flags(s, 2);
    assert Waits(g, s, 1, 2) && Waits(g, s, 2, 1);
    assert Cycle(g, s, [1, 2, 1]);
  }
}
