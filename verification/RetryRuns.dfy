/** How often a call is made again: a bound for the outcomes that afs_Analyze bounds, and any
    number of times for each of the others. */
module RetryRuns {
  import opened RetryMeasure
  import opened RetryModel

  // ---------------------------------------------------------------- what every retry runs down

  lemma SearchedKeeps(s: Req)
    requires Wf(s.rep)
    ensures var c := Searched(s);
            c.rep == s.rep && BusyLeft(c.busyCount) <= BusyLeft(s.busyCount) && Rest(c) == Rest(s) && Cap(c) == Cap(s)
  {
  }

  lemma RestLimit(s: Req)
    requires Wf(s.rep)
    ensures Rest(s) <= Cap(s) + 1
  {
    TotalLimit(s.rep, |s.rep.hosts|);
  }

  /** No replica got heavier, and host h lighter. */
  lemma Lighter(s: Req, t: Req, h: nat)
    requires Wf(s.rep) && Wf(t.rep) && t.rep.hosts == s.rep.hosts && h < |s.rep.hosts| && t.idleError == s.idleError
    requires forall i :: 0 <= i < |s.rep.hosts| ==> Weight(t.rep, i) <= Weight(s.rep, i)
    requires Weight(t.rep, h) < Weight(s.rep, h)
    ensures Rest(t) < Rest(s)
  {
    SumDecreases(s.rep, t.rep, h);
  }

  lemma DownedLighter(s: Req, h: nat, a: nat)
    requires Wf(s.rep) && InUse(s, h, a)
    ensures var t := s.(rep := Downed(s.rep, s.rep.hosts[h], a)); Rest(t) < Rest(s) && Cap(t) == Cap(s)
  {
    var t := s.(rep := Downed(s.rep, s.rep.hosts[h], a));
    DownCounts(s.rep.servers[s.rep.hosts[h]], a);
    Lighter(s, t, h);
    LimitSame(s.rep, t.rep, |s.rep.hosts|);
  }

  lemma BusyLighter(s: Req, h: nat, a: nat, busyCount: nat)
    requires Wf(s.rep) && InUse(s, h, a)
    ensures var t := s.(rep := WithStatus(s.rep, s.rep.hosts[h], RDWR_BUSY), busyCount := busyCount);
            Rest(t) < Rest(s) && Cap(t) == Cap(s)
  {
    var t := s.(rep := WithStatus(s.rep, s.rep.hosts[h], RDWR_BUSY), busyCount := busyCount);
    Lighter(s, t, h);
    LimitSame(s.rep, t.rep, |s.rep.hosts|);
  }

  lemma MissingLighter(s: Req, h: nat, a: nat)
    requires Wf(s.rep) && InUse(s, h, a)
    ensures var t := s.(rep := Worsened(s.rep, s.rep.hosts[h], false), volumeError := VOLMISSING);
            Rest(t) < Rest(s) && Cap(t) == Cap(s)
  {
    var t := s.(rep := Worsened(s.rep, s.rep.hosts[h], false), volumeError := VOLMISSING);
    Lighter(s, t, h);
    LimitSame(s.rep, t.rep, |s.rep.hosts|);
  }

  /** The first idle timeout of a read-only volume is counted, and every later one skips a host
      that was not skipped. */
  lemma IdleLighter(k: Kind, s: Req, h: nat, a: nat, mayRepeat: bool)
    requires Wf(s.rep) && InUse(s, h, a) && k.ro
    ensures var t := Idled(k, s, s.rep.hosts[h], mayRepeat).req; Rest(t) < Rest(s) && Cap(t) == Cap(s)
  {
    var t := Idled(k, s, s.rep.hosts[h], mayRepeat).req;
    TotalMonotone(s.rep, t.rep, |s.rep.hosts|);
    if s.idleError > 0 {
      SumDecreases(s.rep, t.rep, h);
    }
    LimitSame(s.rep, t.rep, |s.rep.hosts|);
  }

  /** A retry after a call leaves less of the replicas, if the outcome is a bounded one. */
  lemma CallRunsDown(k: Kind, s: Req, h: nat, a: nat, r: Reply)
    requires Wf(s.rep) && InUse(s, h, a) && WfVldb(r.vldb) && Bounded(r, k.ro) && !Changes(r)
    ensures var o := Analyzed(k, s, h, a, r);
            o.retry ==> Rest(o.req) < Rest(s) && BusyLeft(o.req.busyCount) <= BusyLeft(s.busyCount) && Cap(o.req) == Cap(s)
  {
    if r.lost {
    } else if IsIdle(r.code) && k.ro {
      IdleLighter(k, s, h, a, r.mayRepeat);
    } else if r.code == VBUSY {
      BusyLighter(s, h, a, s.busyCount + 1);
    } else if IsMissing(r.code) {
      MissingLighter(s, h, a);
    } else if IsDown(r.code) {
      DownedLighter(s, h, a);
    }
  }

  /** A retry without a call uses up one of the waits. */
  lemma WaitRunsDown(s: Req)
    requires Wf(s.rep)
    ensures var o := Unconnected(s);
            && Wf(o.req.rep) && Cap(o.req) == Cap(s)
            && (o.retry ==> BusyLeft(o.req.busyCount) == BusyLeft(s.busyCount) - 1)
  {
    if s.busyCount > 0 {
      LimitSame(s.rep, Reset(s.rep), |s.rep.hosts|);
    }
  }

  // ---------------------------------------------------------------- the bound

  function Width(cap: nat): nat
  {
    cap + 2
  }

  /** The most retries that can follow without a change of the VLDB entry. */
  function Budget(s: Req, cap: nat): nat
    requires Wf(s.rep)
  {
    BusyLeft(s.busyCount) * Width(cap) + Rest(s)
  }

  /** A whole budget: 101 waits, and the replicas run down before each and after the last. */
  function Round(cap: nat): nat
  {
    102 * Width(cap)
  }

  lemma BudgetLimit(s: Req, cap: nat)
    requires Wf(s.rep) && Cap(s) <= cap
    ensures Budget(s, cap) < Round(cap)
  {
    RestLimit(s);
    Times(BusyLeft(s.busyCount), 101, Width(cap));
  }

  lemma Times(x: nat, y: nat, w: nat)
    requires x <= y
    ensures x * w <= y * w
  {
  }

  lemma TurnSpends(k: Kind, s: Req, r: Reply, o: Outcome, cap: nat)
    requires Wf(s.rep) && WfVldb(r.vldb) && Bounded(r, k.ro) && !Changes(r) && Turn(k, s, r, o) && o.retry && Cap(s) <= cap
    ensures Wf(o.req.rep) && Cap(o.req) <= cap && Budget(o.req, cap) < Budget(s, cap)
  {
    var c, t := Searched(s), o.req;
    SearchedKeeps(s);
    if AnyUsable(s) {
      var h: nat, a: nat :| Chosen(s, h, a) && o == Analyzed(k, c, h, a, r);
      assert InUse(c, h, a);
      CallRunsDown(k, c, h, a, r);
      Times(BusyLeft(t.busyCount), BusyLeft(s.busyCount), Width(cap));
    } else {
      WaitRunsDown(c);
      RestLimit(t);
      assert (BusyLeft(t.busyCount) + 1) * Width(cap) == BusyLeft(t.busyCount) * Width(cap) + Width(cap);
      Times(BusyLeft(t.busyCount) + 1, BusyLeft(s.busyCount), Width(cap));
    }
  }

  /** The hosts and servers of a changed entry are within the cap too. */
  predicate Within(r: Reply, cap: nat)
    requires WfVldb(r.vldb)
  {
    Changes(r) ==>
      var there := Replicas(r.vldb.hosts, seq(AFS_MAXHOSTS, _ => 0), r.vldb.servers, seq(AFS_MAXHOSTS, _ => false));
      Limit(there, |there.hosts|) <= cap
  }

  /** The new entry's limit, whatever the status and skip lists are. */
  lemma ChangeWithin(k: Kind, s: Req, h: nat, a: nat, r: Reply, cap: nat)
    requires Wf(s.rep) && IsAddr(s, h, a) && WfVldb(r.vldb) && Changes(r) && Within(r, cap)
    ensures Cap(Analyzed(k, s, h, a, r).req) <= cap
  {
    var t := Analyzed(k, s, h, a, r).req;
    var there := Replicas(r.vldb.hosts, seq(AFS_MAXHOSTS, _ => 0), r.vldb.servers, seq(AFS_MAXHOSTS, _ => false));
    LimitSame(there, t.rep, |there.hosts|);
  }

  /** Every retry costs one of the budget, except that a changed entry starts a new one. */
  lemma TurnPays(k: Kind, s: Req, r: Reply, o: Outcome, cap: nat)
    requires Wf(s.rep) && WfVldb(r.vldb) && Bounded(r, k.ro) && Within(r, cap) && Turn(k, s, r, o) && o.retry && Cap(s) <= cap
    ensures Wf(o.req.rep) && Cap(o.req) <= cap
    ensures Budget(o.req, cap) < if Changes(r) then Round(cap) else Budget(s, cap)
  {
    if !Changes(r) {
      TurnSpends(k, s, r, o, cap);
    } else {
      var c := Searched(s);
      SearchedKeeps(s);
      if AnyUsable(s) {
        var h: nat, a: nat :| Chosen(s, h, a) && o == Analyzed(k, c, h, a, r);
        ChangeWithin(k, c, h, a, r, cap);
      } else {
        WaitRunsDown(c);
      }
      BudgetLimit(o.req, cap);
    }
  }

  predicate AllWf(rs: seq<Reply>)
  {
    forall i :: 0 <= i < |rs| ==> WfVldb(rs[i].vldb)
  }

  /** Each of the outcomes in turn leads to another call. */
  ghost predicate Repeats(k: Kind, s: Req, rs: seq<Reply>)
    requires Wf(s.rep) && AllWf(rs)
    decreases |rs|
  {
    rs == [] || exists o :: Turn(k, s, rs[0], o) && o.retry && Wf(o.req.rep) && Repeats(k, o.req, rs[1..])
  }

  /** How many of the outcomes come with a changed VLDB entry. */
  function ChangesIn(rs: seq<Reply>): nat
  {
    if rs == [] then 0 else (if Changes(rs[0]) then 1 else 0) + ChangesIn(rs[1..])
  }

  /** Bounded outcomes are repeated at most 102 times the size of the volume's list of
      addresses, and as often again after each change of that list. */
  lemma {:induction false} RunBound(k: Kind, s: Req, rs: seq<Reply>, cap: nat)
    requires Wf(s.rep) && AllWf(rs) && Cap(s) <= cap && Repeats(k, s, rs)
    requires forall i :: 0 <= i < |rs| ==> Bounded(rs[i], k.ro) && Within(rs[i], cap)
    ensures |rs| <= ChangesIn(rs) * Round(cap) + Budget(s, cap) < (ChangesIn(rs) + 1) * Round(cap)
    decreases |rs|
  {
    BudgetLimit(s, cap);
    OneMore(ChangesIn(rs), Round(cap));
    if rs != [] {
      var o :| Turn(k, s, rs[0], o) && o.retry && Wf(o.req.rep) && Repeats(k, o.req, rs[1..]);
      TurnPays(k, s, rs[0], o, cap);
      RunBound(k, o.req, rs[1..], cap);
      OneMore(ChangesIn(rs[1..]), Round(cap));
    }
  }

  lemma OneMore(x: nat, w: nat)
    ensures (x + 1) * w == x * w + w
  {
  }

  // ---------------------------------------------------------------- the other outcomes

  function Copies(r: Reply, n: nat): (rs: seq<Reply>)
    ensures |rs| == n && forall i :: 0 <= i < n ==> rs[i] == r
  {
    seq(n, _ => r)
  }

  lemma RepeatsOnce(k: Kind, s: Req, r: Reply, o: Outcome, n: nat)
    requires Wf(s.rep) && WfVldb(r.vldb) && Turn(k, s, r, o) && o.retry && Wf(o.req.rep) && Repeats(k, o.req, Copies(r, n))
    ensures Repeats(k, s, Copies(r, n + 1))
  {
    var rs := Copies(r, n + 1);
    assert rs[1..] == Copies(r, n);
    assert Turn(k, s, rs[0], o);
  }

  /** Some address is chosen whenever any is usable. */
  lemma {:induction false} ChosenExists(s: Req, h: nat, a: nat) returns (i: nat, j: nat)
    requires Wf(s.rep) && InUse(s, h, a)
    ensures Chosen(s, i, j)
    decreases s.rep.status[h], Rank(s, h, a), h, a
  {
    if Shortcut(s) {
      i, j := 0, 0;
    } else if !NoneBelow(s, s.rep.status[h]) {
      i, j :| IsAddr(s, i, j) && s.rep.status[i] < s.rep.status[h] && Usable(s, s.rep.status[i], i, j);
      i, j := ChosenExists(s, i, j);
    } else if !Best(s, s.rep.status[h], h, a, |s.rep.hosts|, 0) {
      i, j :| IsAddr(s, i, j) && Usable(s, s.rep.status[h], i, j)
              && (Rank(s, i, j) < Rank(s, h, a) || (Rank(s, i, j) == Rank(s, h, a) && Before(i, j, h, a)));
      i, j := ChosenExists(s, i, j);
    } else {
      i, j := h, a;
    }
  }

  /** Outcomes that leave every choice as it was. */
  ghost predicate ChangesNothing(k: Kind, s: Req, r: Reply)
    requires Wf(s.rep)
  {
    if r.lost then r.code == RX_MSGSIZE && Searched(s).volumeError == 0
    else
      || r.code == RX_MSGSIZE
      || (IsToken(r.code) && (r.code == VICETOKENDEAD || r.code == RXKADEXPIRED || !r.knownUser))
      || (IsIdle(r.code) && !k.ro && !k.backup && r.mayRepeat && s.idleError == s.tokenError == 0)
  }

  /** From any request that can make a call, these are repeated for as long as they come. */
  lemma {:induction false} RepeatsForAsLong(k: Kind, s: Req, r: Reply, n: nat)
    requires Wf(s.rep) && WfVldb(r.vldb) && AnyUsable(s) && ChangesNothing(k, s, r)
    ensures Repeats(k, s, Copies(r, n)) && !Bounded(r, k.ro)
    decreases n
  {
    if n > 0 {
      var h0: nat, a0: nat :| InUse(s, h0, a0);
      var h, a := ChosenExists(s, h0, a0);
      var o := Analyzed(k, Searched(s), h, a, r);
      assert Turn(k, s, r, o);
      UnchangedNext(k, s, h, a, r);
      RepeatsForAsLong(k, o.req, r, n - 1);
      RepeatsOnce(k, s, r, o, n - 1);
    }
  }

  lemma UnchangedNext(k: Kind, s: Req, h: nat, a: nat, r: Reply)
    requires Wf(s.rep) && WfVldb(r.vldb) && Chosen(s, h, a) && ChangesNothing(k, s, r)
    ensures var o := Analyzed(k, Searched(s), h, a, r);
            o.retry && AnyUsable(o.req) && ChangesNothing(k, o.req, r)
  {
    var c, o := Searched(s), Analyzed(k, Searched(s), h, a, r);
    assert InUse(o.req, h, a);
    if r.lost {
      assert o.req == c;
      assert Shortcut(c) <==> Shortcut(s);
      forall i | 0 <= i < |s.rep.hosts| ensures IsSeen(c, i, false) <==> IsSeen(s, i, false) {
      }
    }
  }

  /** A request for a volume on the given servers, each with one address that is up. */
  function Plain(hosts: seq<nat>): (s: Req)
    requires |hosts| <= AFS_MAXHOSTS
    ensures Wf(s.rep)
  {
    Req(Replicas(hosts, seq(AFS_MAXHOSTS, _ => NOT_BUSY), map h | h in hosts :: [Addr(true, 0)], seq(AFS_MAXHOSTS, _ => false)),
        0, 0, 0, 0, false, false)
  }

  /** A turn that leads back to where it began is repeated for ever. */
  lemma {:induction false} FixedRepeats(k: Kind, s: Req, r: Reply, n: nat)
    requires Wf(s.rep) && WfVldb(r.vldb) && Turn(k, s, r, Outcome(s, true))
    ensures Repeats(k, s, Copies(r, n))
    decreases n
  {
    if n > 0 {
      FixedRepeats(k, s, r, n - 1);
      RepeatsOnce(k, s, r, Outcome(s, true), n - 1);
    }
  }

  lemma FirstChosen(s: Req)
    requires Wf(s.rep) && Shortcut(s)
    ensures Chosen(s, 0, 0) && Searched(s) == s && AnyUsable(s)
  {
    assert InUse(s, 0, 0);
  }

  /** One server, already skipped once: with no other left, a token error forgets the skip list,
      and an idle timeout on a read-write volume does not look at it. */
  lemma SkippedOneRepeats(k: Kind, r: Reply, n: nat) returns (s: Req)
    requires WfVldb(r.vldb) && !r.lost
    requires IsToken(r.code) || (IsIdle(r.code) && !k.ro && !k.backup && r.mayRepeat)
    ensures s == Plain([0]).(rep := Skipping(Plain([0]).rep, 0)) && Repeats(k, s, Copies(r, n))
  {
    s := Plain([0]).(rep := Skipping(Plain([0]).rep, 0));
    FirstChosen(s);
    assert Skipping(s.rep, 0) == s.rep;
    assert s.rep.skip[0];
    assert Turn(k, s, r, Analyzed(k, s, 0, 0, r));
    FixedRepeats(k, s, r, n);
  }

  /** Two servers: an idle timeout on a backup volume skips the first, but only read-only volumes
      count it, so the skip list is not looked at and the first server is asked again. */
  lemma BackupRepeats(k: Kind, r: Reply, n: nat) returns (s: Req)
    requires WfVldb(r.vldb) && !r.lost && IsIdle(r.code) && !k.ro && r.mayRepeat
    ensures s == Plain([0, 1]).(rep := Skipping(Plain([0, 1]).rep, 0)) && Repeats(k, s, Copies(r, n))
  {
    s := Plain([0, 1]).(rep := Skipping(Plain([0, 1]).rep, 0));
    FirstChosen(s);
    assert Skipping(s.rep, 0) == s.rep;
    assert !s.rep.skip[1];
    assert Turn(k, s, r, Analyzed(k, s, 0, 0, r));
    FixedRepeats(k, s, r, n);
  }

  /** One server that keeps restarting: each wait counts 2 and each call counts 1 again. */
  lemma {:induction false} RestartRepeats(k: Kind, r: Reply, n: nat)
    requires WfVldb(r.vldb) && !r.lost && r.code == VRESTARTING
    ensures var s := Plain([0]).(busyCount := 2); Repeats(k, s, Copies(r, n))
    ensures var s := Plain([0]).(busyCount := 1, rep := WithStatus(Plain([0]).rep, 0, RDWR_BUSY)); Repeats(k, s, Copies(r, n))
    decreases n
  {
    if n > 0 {
      var idle := Plain([0]).(busyCount := 2);
      var busy := Plain([0]).(busyCount := 1, rep := WithStatus(Plain([0]).rep, 0, RDWR_BUSY));
      RestartRepeats(k, r, n - 1);
      FirstChosen(idle);
      assert Turn(k, idle, r, Analyzed(k, idle, 0, 0, r));
      assert Analyzed(k, idle, 0, 0, r) == Outcome(busy, true);
      RepeatsOnce(k, idle, r, Outcome(busy, true), n - 1);
      assert !AnyUsable(busy);
      assert Searched(busy) == busy;
      assert busy.rep.status[0] != OFFLINE;
      assert Reset(busy.rep) == idle.rep;
      assert Turn(k, busy, r, Outcome(idle, true));
      RepeatsOnce(k, busy, r, Outcome(idle, true), n - 1);
    }
  }

  /** For each outcome that is not bounded there is a request that repeats it for ever. */
  lemma UnboundedRepeats(k: Kind, r: Reply) returns (s: Req)
    requires WfVldb(r.vldb) && !Bounded(r, k.ro)
    ensures Wf(s.rep) && forall n: nat :: Repeats(k, s, Copies(r, n))
  {
    if r.code == RX_MSGSIZE {
      s := Plain([0]);
      FirstChosen(s);
      assert Turn(k, s, r, Analyzed(k, s, 0, 0, r));
      forall n: nat ensures Repeats(k, s, Copies(r, n)) {
        FixedRepeats(k, s, r, n);
      }
    } else if IsToken(r.code) {
      s := Plain([0]).(rep := Skipping(Plain([0]).rep, 0));
      forall n: nat ensures Repeats(k, s, Copies(r, n)) {
        var t := SkippedOneRepeats(k, r, n);
      }
    } else if r.code == VRESTARTING {
      s := Plain([0]).(busyCount := 2);
      forall n: nat ensures Repeats(k, s, Copies(r, n)) {
        RestartRepeats(k, r, n);
      }
    } else {
      s := Plain([0, 1]).(rep := Skipping(Plain([0, 1]).rep, 0));
      forall n: nat ensures Repeats(k, s, Copies(r, n)) {
        var t := BackupRepeats(k, r, n);
      }
    }
  }

  /** An outcome that does not change the volume's hosts is bounded if and only if no request
      repeats it for ever. */
  lemma BoundedExactly(k: Kind, r: Reply)
    requires WfVldb(r.vldb) && !Changes(r)
    ensures Bounded(r, k.ro) <==> forall s: Req | Wf(s.rep) :: exists n: nat :: !Repeats(k, s, Copies(r, n))
  {
    if Bounded(r, k.ro) {
      forall s: Req | Wf(s.rep) ensures exists n: nat :: !Repeats(k, s, Copies(r, n)) {
        var n := Budget(s, Cap(s)) + 1;
        if Repeats(k, s, Copies(r, n)) {
          NoChanges(r, n);
          RunBound(k, s, Copies(r, n), Cap(s));
        }
      }
    } else {
      var s := UnboundedRepeats(k, r);
    }
  }

  lemma {:induction false} NoChanges(r: Reply, n: nat)
    requires !Changes(r)
    ensures ChangesIn(Copies(r, n)) == 0
    decreases n
  {
    if n > 0 {
      NoChanges(r, n - 1);
      assert Copies(r, n)[1..] == Copies(r, n - 1);
    }
  }
}
