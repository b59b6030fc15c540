/** The walk of DFlushDCache along a hash chain.  afs_bufferLock is dropped at each buffer of
    the file, and whatever other threads do meanwhile can change the chain under the walk: a
    buffer that was still ahead of it may be passed over.  The theorems say exactly which steps
    do that. */
module PoolWalks {
  import opened Basics
  import opened Seqs
  import opened PagePool
  import opened PoolRuns

  /** b comes before x. */
  predicate Before(s: seq<nat>, b: nat, x: nat)
  {
    exists j, k :: 0 <= j < k < |s| && s[j] == b && s[k] == x
  }

  /** x is further on than b on the chain b is filed on: a walk that is at b has x ahead. */
  predicate Ahead(p: Pool, b: nat, x: nat)
  {
    b < |p.bufs| && p.bufs[b].hashIndex < |p.chains| && Before(p.chains[p.bufs[b].hashIndex], b, x)
  }

  /** The steps that take x from ahead of a walk that is at b: x is moved to the front or given
      to another page, or b is given to a page of another chain. */
  predicate Overtakes(s: PS, op: Op, b: nat, x: nat)
  {
    match op
    case Front(h, k) => h < |s.p.chains| && k < |s.p.chains[h]| && s.p.chains[h][k] == x
    case Claim(i, f, q, _) => i == x || (i == b < |s.p.bufs| && PHash(f, q) != s.p.bufs[b].hashIndex)
    case New(i, f, q, _) => i == x || (i == b < |s.p.bufs| && PHash(f, q) != s.p.bufs[b].hashIndex)
    case _ => false
  }

  // ---------------------------------------------------------------- one step

  lemma Found(s: seq<nat>, j: nat, k: nat, b: nat, x: nat)
    requires j < k < |s| && s[j] == b && s[k] == x
    ensures Before(s, b, x)
  {
  }

  /** Nothing comes before the first. */
  lemma FirstNotAfter(s: seq<nat>, b: nat, x: nat)
    requires Distinct(s) && s != [] && s[0] == x
    ensures !Before(s, b, x)
  {
  }

  lemma FrontedBefore(s: seq<nat>, k: nat, b: nat, x: nat)
    requires Distinct(s) && k < |s| && Before(s, b, x)
    ensures Before(Fronted(s, k), b, x) <==> s[k] != x
  {
    if s[k] == x {
      FrontedSame(s, k);
      FirstNotAfter(Fronted(s, k), b, x);
    } else {
      var j, m :| 0 <= j < m < |s| && s[j] == b && s[m] == x;
      Found(Fronted(s, k), if j == k then 0 else if j < k then j + 1 else j, if m < k then m + 1 else m, b, x);
    }
  }

  lemma PrependedBefore(s: seq<nat>, i: nat, b: nat, x: nat)
    requires Before(s, b, x)
    ensures Before([i] + s, b, x)
  {
    var j, k :| 0 <= j < k < |s| && s[j] == b && s[k] == x;
    Found([i] + s, j + 1, k + 1, b, x);
  }

  lemma {:induction false} WithoutBefore(s: seq<nat>, i: nat, b: nat, x: nat)
    requires Before(s, b, x) && i != b && i != x
    ensures Before(Without(s, i), b, x)
    decreases |s|
  {
    var j, k :| 0 <= j < k < |s| && s[j] == b && s[k] == x;
    var t := s[1..];
    if j == 0 {
      assert t[k - 1] == x;
      FirstBefore(Without(t, i), b, x);
    } else {
      Found(t, j - 1, k - 1, b, x);
      WithoutBefore(t, i, b, x);
      if s[0] != i {
        PrependedBefore(Without(t, i), s[0], b, x);
      }
    }
  }

  lemma FirstBefore(s: seq<nat>, b: nat, x: nat)
    requires x in s
    ensures Before([b] + s, b, x)
  {
    var k :| 0 <= k < |s| && s[k] == x;
    Found([b] + s, 0, k + 1, b, x);
  }

  /** A buffer taken from one chain, if it is on it, and put at the front of another or the same. */
  function Moved(chains: seq<seq<nat>>, i: nat, g: nat, h: nat): (r: seq<seq<nat>>)
    requires g < |chains| && h < |chains|
  {
    var pulled := chains[g := Without(chains[g], i)];
    pulled[h := [i] + pulled[h]]
  }

  /** Others keep their order. */
  lemma MovedOther(chains: seq<seq<nat>>, i: nat, g: nat, h: nat, c: nat, b: nat, x: nat)
    requires g < |chains| && h < |chains| && c < |chains| && Before(chains[c], b, x) && i != b && i != x
    ensures Before(Moved(chains, i, g, h)[c], b, x)
  {
    var pulled := chains[g := Without(chains[g], i)];
    WithoutBefore(chains[c], i, b, x);
    PrependedBefore(pulled[c], i, b, x);
  }

  lemma RefiledAhead(p: Pool, i: nat, f: nat, inode: nat, q: int, time: int, b: nat, x: nat)
    requires Hashed(p) && i < |p.bufs| && p.bufs[i].hashIndex < PHSIZE && Ahead(p, b, x)
    ensures Ahead(Refiled(p, i, f, inode, q, time), b, x) <==>
              i != x && (i == b ==> PHash(f, q) == p.bufs[b].hashIndex)
  {
    var r, h, c := Refiled(p, i, f, inode, q, time), PHash(f, q), p.bufs[b].hashIndex;
    assert r.chains == Moved(p.chains, i, p.bufs[i].hashIndex, h);
    var j, k :| 0 <= j < k < |p.chains[c]| && p.chains[c][j] == b && p.chains[c][k] == x;
    assert p.bufs[x].hashIndex == c && b != x;
    if i == x {
      RefiledHashed(p, i, f, inode, q, time);
      if h == c {
        FirstNotAfter(r.chains[c], b, x);
      }
    } else if i == b {
      if h == c {
        FirstBefore(Without(p.chains[c], b), b, x);
      }
    } else {
      MovedOther(p.chains, i, p.bufs[i].hashIndex, h, c, b, x);
    }
  }

  lemma ClaimedAhead(p: Pool, i: nat, f: nat, q: int, time: int, b: nat, x: nat)
    requires Hashed(p) && i < |p.bufs| && p.bufs[i].hashIndex < PHSIZE && f in p.files && Ahead(p, b, x)
    ensures Ahead(Claimed(p, i, f, q, time), b, x) <==> i != x && (i == b ==> PHash(f, q) == p.bufs[b].hashIndex)
  {
    RefiledAhead(p, i, f, p.files[f], q, time, b, x);
  }

  /** Steps that move no buffer. */
  lemma OthersKeepAhead(s: PS, op: Op, b: nat, x: nat)
    requires Legal(s, op) && Ahead(s.p, b, x) && !op.Front? && !op.Claim? && !op.New?
    ensures Ahead(Apply(s, op).p, b, x)
  {
  }

  /** With x ahead of b, a step leaves it there if and only if it does not overtake it. */
  lemma AheadExactly(s: PS, op: Op, b: nat, x: nat)
    requires Inv(s) && Legal(s, op) && Ahead(s.p, b, x)
    ensures Ahead(Apply(s, op).p, b, x) <==> !Overtakes(s, op, b, x)
  {
    match op {
      case Front(h, k) =>
        if h == s.p.bufs[b].hashIndex {
          FrontedBefore(s.p.chains[h], k, b, x);
        }
      case Claim(i, f, q, t) => ClaimedAhead(s.p, i, f, q, t, b, x);
      case New(i, f, q, t) => ClaimedAhead(s.p, i, f, q, t, b, x);
      case _ => OthersKeepAhead(s, op, b, x);
    }
  }

  // ---------------------------------------------------------------- one buffer's turn

  /** x is ahead of b all through a run. */
  ghost predicate InSight(s: PS, ops: seq<Op>, b: nat, x: nat)
    requires LegalRun(s, ops)
    decreases |ops|
  {
    Ahead(Run(s, ops).p, b, x) && (ops == [] || InSight(s, ops[..|ops| - 1], b, x))
  }

  /** No step of the run overtakes x. */
  ghost predicate Unpassed(s: PS, ops: seq<Op>, b: nat, x: nat)
    requires LegalRun(s, ops)
    decreases |ops|
  {
    ops == [] || (var n := |ops| - 1; Unpassed(s, ops[..n], b, x) && !Overtakes(Run(s, ops[..n]), ops[n], b, x))
  }

  lemma {:induction false} InSightExactly(s: PS, ops: seq<Op>, b: nat, x: nat)
    requires Inv(s) && LegalRun(s, ops) && Ahead(s.p, b, x)
    ensures InSight(s, ops, b, x) <==> Unpassed(s, ops, b, x)
    decreases |ops|
  {
    if ops != [] {
      var n := |ops| - 1;
      InSightExactly(s, ops[..n], b, x);
      if Unpassed(s, ops[..n], b, x) {
        RunRefines(s, ops[..n]);
        AheadExactly(Run(s, ops[..n]), ops[n], b, x);
      }
    }
  }

  // ---------------------------------------------------------------- one chain

  /** The walk's stop at a buffer, and what everybody does before it goes on. */
  datatype Visit = Visit(b: nat, ops: seq<Op>)

  /** The head of a chain. */
  function First(p: Pool, h: nat): Option<nat>
  {
    if h < |p.chains| && p.chains[h] != [] then Some(p.chains[h][0]) else None
  }

  /** hashNext of a buffer. */
  ghost function Next(p: Pool, b: nat): Option<nat>
    requires b < |p.bufs| && p.bufs[b].hashIndex < |p.chains|
  {
    var s := p.chains[p.bufs[b].hashIndex];
    if k :| 0 <= k && k + 1 < |s| && s[k] == b then Some(s[k + 1]) else None
  }

  /** A walk that is at b, or at the end, makes these visits. */
  ghost predicate Walks(s: PS, b: Option<nat>, vs: seq<Visit>)
    decreases |vs|
  {
    if b.None? || vs == [] then b.None? && vs == [] else
      && vs[0].b == b.value && LegalRun(s, vs[0].ops)
      && (var r := Run(s, vs[0].ops).p; b.value < |r.bufs| && r.bufs[b.value].hashIndex < |r.chains|)
      && Walks(Run(s, vs[0].ops), Next(Run(s, vs[0].ops).p, b.value), vs[1..])
  }

  ghost function End(s: PS, b: Option<nat>, vs: seq<Visit>): (r: PS)
    requires Walks(s, b, vs)
    decreases |vs|
  {
    if vs == [] then s else End(Run(s, vs[0].ops), Next(Run(s, vs[0].ops).p, b.value), vs[1..])
  }

  /** The walk gets to x, which is ahead of it until then. */
  ghost predicate Reaches(s: PS, b: Option<nat>, vs: seq<Visit>, x: nat)
    requires Walks(s, b, vs)
    decreases |vs|
  {
    vs != [] && (vs[0].b == x || (
      && InSight(s, vs[0].ops, vs[0].b, x)
      && Reaches(Run(s, vs[0].ops), Next(Run(s, vs[0].ops).p, b.value), vs[1..], x)))
  }

  /** No step overtakes x before the walk has got to it. */
  ghost predicate Spared(s: PS, b: Option<nat>, vs: seq<Visit>, x: nat)
    requires Walks(s, b, vs)
    decreases |vs|
  {
    vs == [] || vs[0].b == x || (
      && Unpassed(s, vs[0].ops, vs[0].b, x)
      && Spared(Run(s, vs[0].ops), Next(Run(s, vs[0].ops).p, b.value), vs[1..], x))
  }

  predicate Visits(vs: seq<Visit>, x: nat)
  {
    exists k :: 0 <= k < |vs| && vs[k].b == x
  }

  lemma NextAhead(p: Pool, b: nat, x: nat)
    requires Hashed(p) && Ahead(p, b, x)
    ensures var n := Next(p, b); n.Some? && (n.value == x || Ahead(p, n.value, x))
  {
    var s := p.chains[p.bufs[b].hashIndex];
    var j, k :| 0 <= j < k < |s| && s[j] == b && s[k] == x;
    assert Next(p, b) == Some(s[j + 1]);
    if j + 1 < k {
      Found(s, j + 1, k, s[j + 1], x);
    }
  }

  lemma FirstAhead(p: Pool, h: nat, x: nat)
    requires Hashed(p) && h < PHSIZE && x in p.chains[h]
    ensures var b := First(p, h); b.Some? && (b.value == x || Ahead(p, b.value, x))
  {
    var s := p.chains[h];
    var k :| 0 <= k < |s| && s[k] == x;
    if k > 0 {
      Found(s, 0, k, s[0], x);
    }
  }

  lemma {:induction false} ReachedVisited(s: PS, b: Option<nat>, vs: seq<Visit>, x: nat)
    requires Walks(s, b, vs) && Reaches(s, b, vs, x)
    ensures Visits(vs, x)
    decreases |vs|
  {
    if vs[0].b != x {
      ReachedVisited(Run(s, vs[0].ops), Next(Run(s, vs[0].ops).p, b.value), vs[1..], x);
      var k :| 0 <= k < |vs[1..]| && vs[1..][k].b == x;
      assert vs[k + 1].b == x;
    }
  }

  /** A walk gets to a buffer ahead of it, having it ahead all the time, if and only if no step
      overtakes that buffer. */
  lemma {:induction false} WalkExactly(s: PS, b: Option<nat>, vs: seq<Visit>, x: nat)
    requires Inv(s) && Walks(s, b, vs) && b.Some? && (b.value == x || Ahead(s.p, b.value, x))
    ensures Reaches(s, b, vs, x) <==> Spared(s, b, vs, x)
    ensures Spared(s, b, vs, x) ==> Visits(vs, x)
    decreases |vs|
  {
    if b.value != x {
      var ops := vs[0].ops;
      InSightExactly(s, ops, b.value, x);
      if Unpassed(s, ops, b.value, x) {
        RunRefines(s, ops);
        NextAhead(Run(s, ops).p, b.value, x);
        WalkExactly(Run(s, ops), Next(Run(s, ops).p, b.value), vs[1..], x);
      }
    }
    if Reaches(s, b, vs, x) {
      ReachedVisited(s, b, vs, x);
    }
  }

  // ---------------------------------------------------------------- the four chains of a file

  /** The steps that take a buffer off chain h: it is given to a page of another chain. */
  predicate Leaves(op: Op, h: nat, x: nat)
  {
    match op
    case Claim(i, f, q, _) => i == x && PHash(f, q) != h
    case New(i, f, q, _) => i == x && PHash(f, q) != h
    case _ => false
  }

  lemma MovedIn(chains: seq<seq<nat>>, i: nat, g: nat, h: nat, c: nat, x: nat)
    requires g < |chains| && h < |chains| && c < |chains| && x in chains[c] && (i == x ==> g == c)
    ensures x in Moved(chains, i, g, h)[c] <==> i != x || h == c
  {
  }

  lemma OnChainExactly(s: PS, op: Op, h: nat, x: nat)
    requires Inv(s) && Legal(s, op) && h < PHSIZE && x in s.p.chains[h]
    ensures x in Apply(s, op).p.chains[h] <==> !Leaves(op, h, x)
  {
    match op {
      case Front(c, k) => FrontedSame(s.p.chains[c], k);
      case Claim(i, f, q, _) => MovedIn(s.p.chains, i, s.p.bufs[i].hashIndex, PHash(f, q), h, x);
      case New(i, f, q, _) => MovedIn(s.p.chains, i, s.p.bufs[i].hashIndex, PHash(f, q), h, x);
      case _ =>
    }
  }

  /** x is on chain h all through a run. */
  ghost predicate StaysOn(s: PS, ops: seq<Op>, h: nat, x: nat)
    requires LegalRun(s, ops)
    decreases |ops|
  {
    h < |Run(s, ops).p.chains| && x in Run(s, ops).p.chains[h] && (ops == [] || StaysOn(s, ops[..|ops| - 1], h, x))
  }

  predicate NeverLeaves(ops: seq<Op>, h: nat, x: nat)
  {
    forall k :: 0 <= k < |ops| ==> !Leaves(ops[k], h, x)
  }

  lemma LeavesLast(ops: seq<Op>, h: nat, x: nat)
    requires ops != []
    ensures NeverLeaves(ops, h, x) <==> NeverLeaves(ops[..|ops| - 1], h, x) && !Leaves(ops[|ops| - 1], h, x)
  {
  }

  /** One more step of a run that has kept x on the chain. */
  lemma StaysNext(s: PS, op: Op, h: nat, x: nat)
    requires Inv(s) && Legal(s, op) && h < PHSIZE && x in s.p.chains[h]
    ensures |Apply(s, op).p.chains| == PHSIZE && (x in Apply(s, op).p.chains[h] <==> !Leaves(op, h, x))
  {
    StepRefines(s, op);
    OnChainExactly(s, op, h, x);
  }

  lemma {:induction false} StaysExactly(s: PS, ops: seq<Op>, h: nat, x: nat)
    requires Inv(s) && LegalRun(s, ops) && h < PHSIZE && x in s.p.chains[h]
    ensures StaysOn(s, ops, h, x) <==> NeverLeaves(ops, h, x)
    decreases |ops|
  {
    if ops != [] {
      var n := |ops| - 1;
      StaysExactly(s, ops[..n], h, x);
      LeavesLast(ops, h, x);
      if NeverLeaves(ops[..n], h, x) {
        RunRefines(s, ops[..n]);
        StaysNext(Run(s, ops[..n]), ops[n], h, x);
      }
    }
  }

  /** x stays on chain h while a walk is on another chain. */
  ghost predicate Waits(s: PS, b: Option<nat>, vs: seq<Visit>, h: nat, x: nat)
    requires Walks(s, b, vs)
    decreases |vs|
  {
    vs == [] || (
      && StaysOn(s, vs[0].ops, h, x)
      && Waits(Run(s, vs[0].ops), Next(Run(s, vs[0].ops).p, b.value), vs[1..], h, x))
  }

  predicate Unmoved(vs: seq<Visit>, h: nat, x: nat)
  {
    forall k :: 0 <= k < |vs| ==> NeverLeaves(vs[k].ops, h, x)
  }

  lemma {:induction false} WaitsExactly(s: PS, b: Option<nat>, vs: seq<Visit>, h: nat, x: nat)
    requires Inv(s) && Walks(s, b, vs) && h < PHSIZE && x in s.p.chains[h]
    ensures Inv(End(s, b, vs))
    ensures Waits(s, b, vs, h, x) <==> Unmoved(vs, h, x)
    ensures Unmoved(vs, h, x) ==> x in End(s, b, vs).p.chains[h]
    decreases |vs|
  {
    if vs != [] {
      var r := Run(s, vs[0].ops);
      RunRefines(s, vs[0].ops);
      StaysExactly(s, vs[0].ops, h, x);
      assert Unmoved(vs, h, x) <==> NeverLeaves(vs[0].ops, h, x) && Unmoved(vs[1..], h, x);
      if NeverLeaves(vs[0].ops, h, x) {
        WaitsExactly(r, Next(r.p, b.value), vs[1..], h, x);
      } else {
        EndInv(r, Next(r.p, b.value), vs[1..]);
      }
    }
  }

  lemma {:induction false} EndInv(s: PS, b: Option<nat>, vs: seq<Visit>)
    requires Inv(s) && Walks(s, b, vs)
    ensures Inv(End(s, b, vs))
    decreases |vs|
  {
    if vs != [] {
      RunRefines(s, vs[0].ops);
      EndInv(Run(s, vs[0].ops), Next(Run(s, vs[0].ops).p, b.value), vs[1..]);
    }
  }

  /** DFlushDCache from its n-th chain on: each is walked from where the last walk ended. */
  ghost predicate WalksFrom(s: PS, f: nat, n: nat, walks: seq<seq<Visit>>)
    decreases |walks| - n
  {
    |walks| == PHPAGEMASK + 1 && (n < |walks| ==>
      Walks(s, First(s.p, PHash(f, n)), walks[n]) && WalksFrom(After(s, f, n, walks[n]), f, n + 1, walks))
  }

  /** The pool when the walk of the n-th chain is over. */
  ghost function After(s: PS, f: nat, n: nat, vs: seq<Visit>): PS
    requires Walks(s, First(s.p, PHash(f, n)), vs)
  {
    End(s, First(s.p, PHash(f, n)), vs)
  }

  /** x stays on the m-th chain until that is walked, and is then reached. */
  ghost predicate ReachesOn(s: PS, f: nat, n: nat, walks: seq<seq<Visit>>, m: nat, x: nat)
    requires WalksFrom(s, f, n, walks) && n <= m <= PHPAGEMASK
    decreases m - n
  {
    var b := First(s.p, PHash(f, n));
    if n == m then Reaches(s, b, walks[n], x) else
      Waits(s, b, walks[n], PHash(f, m), x) && ReachesOn(After(s, f, n, walks[n]), f, n + 1, walks, m, x)
  }

  /** No step takes x from that chain before it is walked, or overtakes x then. */
  ghost predicate SparedOn(s: PS, f: nat, n: nat, walks: seq<seq<Visit>>, m: nat, x: nat)
    requires WalksFrom(s, f, n, walks) && n <= m <= PHPAGEMASK
    decreases m - n
  {
    var b := First(s.p, PHash(f, n));
    if n == m then Spared(s, b, walks[n], x) else
      Unmoved(walks[n], PHash(f, m), x) && SparedOn(After(s, f, n, walks[n]), f, n + 1, walks, m, x)
  }

  /** x is on chain h, in a sound pool. */
  ghost predicate Filed(s: PS, h: nat, x: nat)
  {
    Inv(s) && h < PHSIZE && x in s.p.chains[h]
  }

  /** While an earlier chain is walked. */
  lemma FiledWaits(s: PS, f: nat, n: nat, vs: seq<Visit>, h: nat, x: nat)
    requires Filed(s, h, x) && Walks(s, First(s.p, PHash(f, n)), vs)
    ensures Waits(s, First(s.p, PHash(f, n)), vs, h, x) <==> Unmoved(vs, h, x)
    ensures Unmoved(vs, h, x) ==> Filed(After(s, f, n, vs), h, x)
  {
    WaitsExactly(s, First(s.p, PHash(f, n)), vs, h, x);
  }

  /** While its own chain is walked. */
  lemma FiledReached(s: PS, h: nat, vs: seq<Visit>, x: nat)
    requires Filed(s, h, x) && Walks(s, First(s.p, h), vs)
    ensures Reaches(s, First(s.p, h), vs, x) <==> Spared(s, First(s.p, h), vs, x)
    ensures Spared(s, First(s.p, h), vs, x) ==> Visits(vs, x)
  {
    FirstAhead(s.p, h, x);
    WalkExactly(s, First(s.p, h), vs, x);
  }

  lemma {:induction false} ReachesExactly(s: PS, f: nat, n: nat, walks: seq<seq<Visit>>, m: nat, x: nat)
    requires WalksFrom(s, f, n, walks) && n <= m <= PHPAGEMASK && Filed(s, PHash(f, m), x)
    ensures ReachesOn(s, f, n, walks, m, x) <==> SparedOn(s, f, n, walks, m, x)
    ensures SparedOn(s, f, n, walks, m, x) ==> Visits(walks[m], x)
    decreases m - n
  {
    if n == m {
      FiledReached(s, PHash(f, m), walks[n], x);
    } else {
      FiledWaits(s, f, n, walks[n], PHash(f, m), x);
      if Unmoved(walks[n], PHash(f, m), x) {
        ReachesExactly(After(s, f, n, walks[n]), f, n + 1, walks, m, x);
      }
    }
  }

  lemma OnFileChain(s: PS, f: nat, x: nat, m: nat)
    requires Inv(s) && x < |s.p.bufs| && s.p.bufs[x].fid == f && m == s.p.bufs[x].page % 4
    ensures m <= PHPAGEMASK && Filed(s, PHash(f, m), x)
  {
    assert OnChain(s.p, x);
  }

  /** DFlushDCache, whatever other threads do while it has dropped afs_bufferLock: a buffer of
      the file stays on its chain and ahead of the walk, and is visited, if and only if until
      then no step gives it to another page, moves it to the front past the walk, or takes the
      buffer the walk is at to another chain. */
  lemma FlushReaches(s: PS, f: nat, walks: seq<seq<Visit>>, x: nat)
    requires Inv(s) && WalksFrom(s, f, 0, walks) && x < |s.p.bufs| && s.p.bufs[x].fid == f
    ensures var m := s.p.bufs[x].page % 4;
            && (ReachesOn(s, f, 0, walks, m, x) <==> SparedOn(s, f, 0, walks, m, x))
            && (SparedOn(s, f, 0, walks, m, x) ==> Visits(walks[m], x))
  {
    var m := s.p.bufs[x].page % 4;
    OnFileChain(s, f, x, m);
    ReachesExactly(s, f, 0, walks, m, x);
  }

  // ---------------------------------------------------------------- a buffer passed over

  function OneChain(h: nat, s: seq<nat>): (r: seq<seq<nat>>)
    ensures |r| == PHSIZE && forall c :: 0 <= c < PHSIZE ==> r[c] == if c == h then s else []
  {
    seq(PHSIZE, c => if c == h then s else [])
  }

  /** Two dirty pages of a file, on one chain. */
  function TwoDirty(f: nat, inode: nat): PS
  {
    var h := PHash(f, 0);
    PS(Pool([Buffer(f, inode, 0, 1, 0, true, h, ZeroPage(), false), Buffer(f, inode, 4, 2, 0, true, h, ZeroPage(), false)],
            OneChain(h, [0, 1]), map[], map[f := inode]), {}, None)
  }

  /** The walk writes out the first of two dirty buffers; meanwhile a DRead moves the second to
      the front; the first is then the last of its chain, and the second is never visited. */
  lemma PassedOver(f: nat, inode: nat)
    ensures var s, h := TwoDirty(f, inode), PHash(f, 0);
            var ops := [Flush(0)] + [Front(h, 1)];
            && Inv(s) && LegalRun(s, ops) && Walks(s, First(s.p, h), [Visit(0, ops)])
            && (var r := Run(s, ops).p; |r.bufs| == 2 && r.bufs[1].fid == f && r.bufs[1].dirty)
  {
    var s, h := TwoDirty(f, inode), PHash(f, 0);
    assert PHash(f, 4) == h;
    assert s.p.chains[h] == [0, 1];
    RunThen(s, [], Flush(0));
    assert [] + [Flush(0)] == [Flush(0)];
    RunThen(s, [Flush(0)], Front(h, 1));
    var r := Run(s, [Flush(0)] + [Front(h, 1)]).p;
    assert r.chains[h] == [1, 0];
    assert Next(r, 0).None?;
  }
}
