/** afs_Conn and afs_Analyze: choosing a replica for a call, deciding from the outcome whether
    to call again, and putting the connection back. */
module Retry {
  import opened RetryMeasure
  import opened RetryModel
  import opened RetryRuns
  import Connections

  /** Searches and waits do not change which addresses are usable. */
  predicate SameChoices(s: Req, t: Req)
  {
    s.rep == t.rep && s.idleError == t.idleError && s.tokenError == t.tokenError
  }

  /** What a search over the addresses before (n, m) has found at a level. */
  ghost predicate FoundSoFar(s: Req, level: nat, found: bool, h: nat, a: nat, n: nat, m: nat)
    requires Wf(s.rep)
  {
    if found then Before(h, a, n, m) && Best(s, level, h, a, n, m) else NoneUsable(s, level, n, m)
  }

  lemma NotedTwice(s: Req, n: nat)
    requires Wf(s.rep) && n <= |s.rep.hosts|
    ensures Noted(Noted(s, n), n) == Noted(s, n)
  {
    var t := Noted(s, n);
    assert forall i, busy :: 0 <= i < n ==> (IsSeen(t, i, busy) <==> IsSeen(s, i, busy));
  }

  lemma NotedNext(s: Req, n: nat, t: Req)
    requires Wf(s.rep) && n < |s.rep.hosts| && SameChoices(s, t)
    requires t == Noted(s, n)
    ensures Noted(s, n + 1) == t.(busyCount := if t.busyCount == 0 && IsSeen(s, n, true) then 1 else t.busyCount,
                                  volumeError := if t.volumeError == 0 && IsSeen(s, n, false) then VOLMISSING else t.volumeError)
  {
  }

  class Request {
    // the volume
    var hosts: seq<nat>
    var status: seq<nat>
    const kind: Kind
    // the servers, and the user's connections to them
    var servers: map<nat, seq<Addr>>
    const pool: Connections.ConnPool
    // struct vrequest
    var busyCount: nat
    var skip: seq<bool>
    var idleError: nat
    var tokenError: nat
    var volumeError: int
    var networkError: bool
    var accessError: bool

    ghost function S(): Req
      reads this
    {
      Req(Replicas(hosts, status, servers, skip), busyCount, idleError, tokenError, volumeError, networkError, accessError)
    }

    ghost predicate Valid()
      reads this
    {
      Wf(S().rep)
    }

    /** afs_FinalizeReq on a fresh request, for a volume and servers in any state. */
    constructor (hosts: seq<nat>, status: seq<nat>, kind: Kind, servers: map<nat, seq<Addr>>, pool: Connections.ConnPool)
      requires |hosts| <= AFS_MAXHOSTS == |status| && forall i :: 0 <= i < |hosts| ==> hosts[i] in servers
      ensures Valid() && this.kind == kind && this.pool == pool
      ensures S() == Req(Replicas(hosts, status, servers, seq(AFS_MAXHOSTS, _ => false)), 0, 0, 0, 0, false, false)
    {
      this.hosts, this.status, this.kind, this.servers, this.pool := hosts, status, kind, servers, pool;
      busyCount, skip, idleError, tokenError, volumeError := 0, seq(AFS_MAXHOSTS, _ => false), 0, 0, 0;
      networkError, accessError := false, false;
    }

    // ---------------------------------------------------------------- afs_Conn

    /** afs_Conn passing over host i because of its status. */
    method Note(i: nat)
      requires Valid() && i < |hosts| && !Skipped(S(), i)
      modifies this`busyCount, this`volumeError
      ensures S() == old(S()).(busyCount := busyCount, volumeError := volumeError)
      ensures busyCount == if old(busyCount) == 0 && IsSeen(old(S()), i, true) then 1 else old(busyCount)
      ensures volumeError == if old(volumeError) == 0 && IsSeen(old(S()), i, false) then VOLMISSING else old(volumeError)
    {
      if status[i] == RD_BUSY || status[i] == RDWR_BUSY {
        if busyCount == 0 {
          busyCount := busyCount + 1;
        }
      } else if status[i] == OFFLINE {
        if volumeError == 0 {
          volumeError := VOLMISSING;
        }
      }
    }

    method ScanAddresses(ghost s: Req, level: nat, i: nat, found0: bool, h0: nat, a0: nat) returns (found: bool, h: nat, a: nat)
      requires Valid() && SameChoices(s, S()) && i < |hosts| && !Skipped(s, i) && status[i] == level
      requires FoundSoFar(s, level, found0, h0, a0, i, 0)
      ensures FoundSoFar(s, level, found, h, a, i + 1, 0)
    {
      found, h, a := found0, h0, a0;
      var j := 0;
      while j < |servers[hosts[i]]|
        invariant 0 <= j <= |servers[hosts[i]]| && FoundSoFar(s, level, found, h, a, i, j)
      {
        ghost var f, h1, a1 := found, h, a;
        if servers[hosts[i]][j].up {
          if !found || servers[hosts[h]][a].rank > servers[hosts[i]][j].rank {
            found, h, a := true, i, j;
          }
        }
        NextAddress(s, level, f, h1, a1, i, j);
        j := j + 1;
      }
      LastAddress(s, level, found, h, a, i);
    }

    method ScanHost(ghost s: Req, level: nat, i: nat, found0: bool, h0: nat, a0: nat) returns (found: bool, h: nat, a: nat)
      requires Valid() && SameChoices(s, S()) && i < |hosts| && level <= END_NOT_BUSY && S() == Noted(s, i)
      requires FoundSoFar(s, level, found0, h0, a0, i, 0)
      modifies this`busyCount, this`volumeError
      ensures FoundSoFar(s, level, found, h, a, i + 1, 0) && S() == Noted(s, i + 1)
    {
      found, h, a := found0, h0, a0;
      NotedNext(s, i, S());
      if (idleError > 0 || tokenError > 0) && skip[i] {
        PassOver(s, level, found, h, a, i);
      } else if status[i] != level {
        Note(i);
        PassOver(s, level, found, h, a, i);
      } else {
        found, h, a := ScanAddresses(s, level, i, found, h, a);
      }
    }

    /** One level of afs_Conn's search. */
    method ScanLevel(ghost s: Req, level: nat) returns (found: bool, h: nat, a: nat)
      requires Valid() && SameChoices(s, S()) && level <= END_NOT_BUSY
      modifies this`busyCount, this`volumeError
      ensures FoundSoFar(s, level, found, h, a, |hosts|, 0) && S() == Noted(old(S()), |hosts|)
    {
      ghost var t := S();
      found, h, a := false, 0, 0;
      var i := 0;
      while i < |hosts|
        invariant 0 <= i <= |hosts| && SameChoices(t, S()) && S() == Noted(t, i)
        invariant FoundSoFar(t, level, found, h, a, i, 0)
      {
        found, h, a := ScanHost(t, level, i, found, h, a);
        i := i + 1;
      }
      SameFound(t, s, level, found, h, a, |hosts|);
    }

    /** afs_Conn's choice of an address. */
    method Choose() returns (found: bool, h: nat, a: nat)
      requires Valid()
      modifies this`busyCount, this`volumeError
      ensures S() == Searched(old(S())) && (found <==> AnyUsable(old(S()))) && (found ==> Chosen(old(S()), h, a))
    {
      ghost var s := S();
      found, h, a := false, 0, 0;
      if |hosts| > 0 && |servers[hosts[0]]| > 0 && servers[hosts[0]][0].up
         && !((idleError > 0 || tokenError > 0) && skip[0]) && status[0] == NOT_BUSY {
        found := true;
        FirstChosen(s);
        return;
      }
      var level := NOT_BUSY;
      while !found && level <= END_NOT_BUSY
        invariant NOT_BUSY <= level <= END_NOT_BUSY + 1 && SameChoices(s, S())
        invariant S() == if level == 0 then s else Noted(s, |hosts|)
        invariant if found then level > 0 && Best(s, level - 1, h, a, |hosts|, 0) && NoneBelow(s, level - 1) else NoneBelow(s, level)
      {
        NotedTwice(s, |hosts|);
        found, h, a := ScanLevel(s, level);
        if !found {
          NoneAtLevel(s, level);
        }
        level := level + 1;
      }
      if found {
        assert InUse(s, h, a);
      }
    }

    /** afs_Conn, which hands out a reference to the connection it finds. */
    method Connect() returns (found: bool, h: nat, a: nat, c: Connections.Conn)
      requires Valid() && pool.Valid()
      modifies this`busyCount, this`volumeError, pool
      ensures S() == Searched(old(S())) && (found <==> AnyUsable(old(S()))) && (found ==> Chosen(old(S()), h, a))
      ensures pool.Valid() && pool.held == if found then old(pool.held) + multiset{c} else old(pool.held)
      ensures found ==> c.key == (hosts[h], a)
    {
      found, h, a := Choose();
      c := Connections.Conn((0, 0), 0);
      if found {
        c := pool.Get((hosts[h], a));
      }
    }

    // ---------------------------------------------------------------- afs_Analyze

    /** afs_Analyze without a connection although some call has met a busy volume. */
    method WaitForBusy() returns (retry: bool)
      requires Valid() && busyCount > 0
      modifies this`status, this`busyCount, this`volumeError
      ensures Outcome(S(), retry) == Waited(old(S()))
    {
      ghost var r := S().rep;
      retry := false;
      var i := 0;
      while i < AFS_MAXHOSTS
        modifies this`status
        invariant 0 <= i <= AFS_MAXHOSTS && |status| == AFS_MAXHOSTS
        invariant forall k :: 0 <= k < AFS_MAXHOSTS ==>
                    status[k] == if k < i && r.status[k] != OFFLINE then NOT_BUSY else r.status[k]
        invariant retry <==> exists k :: 0 <= k < i && r.status[k] != OFFLINE
      {
        if status[i] != NOT_BUSY && status[i] != OFFLINE {
          status := status[i := NOT_BUSY];
        }
        if status[i] == NOT_BUSY {
          retry := true;
        }
        i := i + 1;
      }
      assert status == Reset(r).status;
      if busyCount > 100 {
        volumeError := VOLBUSY;
        retry := false;
      }
      if retry {
        busyCount := busyCount + 1;
      }
    }

    /** Sets the status of every replica on one server. */
    method SetStatus(server: nat, st: nat)
      requires Valid()
      modifies this`status
      ensures S() == old(S()).(rep := WithStatus(old(S()).rep, server, st))
    {
      ghost var r := S().rep;
      var i := 0;
      while i < |hosts|
        invariant 0 <= i <= |hosts| && |status| == AFS_MAXHOSTS
        invariant forall k :: 0 <= k < AFS_MAXHOSTS ==> status[k] == if k < i && hosts[k] == server then st else r.status[k]
      {
        if hosts[i] == server {
          status := status[i := st];
        }
        i := i + 1;
      }
      assert status == WithStatus(r, server, st).status;
    }

    /** The status of the replicas after a missing volume. */
    method MarkMissing(server: nat, same: bool)
      requires Valid()
      modifies this`status
      ensures S() == old(S()).(rep := Worsened(old(S()).rep, server, !same))
    {
      ghost var r := S().rep;
      var i := 0;
      while i < |hosts|
        invariant 0 <= i <= |hosts| && |status| == AFS_MAXHOSTS
        invariant forall k :: 0 <= k < AFS_MAXHOSTS ==>
                    status[k] == if k >= i then r.status[k]
                                 else if hosts[k] == server then Worse(r.status[k])
                                 else if !same then NOT_BUSY else r.status[k]
      {
        if hosts[i] == server {
          if status[i] == END_NOT_BUSY {
            status := status[i := OFFLINE];
          } else {
            status := status[i := status[i] + 1];
          }
        } else if !same {
          status := status[i := NOT_BUSY];
        }
        i := i + 1;
      }
      assert status == Worsened(r, server, !same).status;
    }

    /** afs_BlackListOnce, which tells whether any host is left. */
    method BlackListOnce(server: nat) returns (left: bool)
      requires Valid()
      modifies this`skip
      ensures S() == old(S()).(rep := Skipping(old(S()).rep, server)) && (left <==> SomeLeft(S().rep))
    {
      ghost var r := S().rep;
      var i := 0;
      while i < |hosts|
        invariant 0 <= i <= |hosts| && |skip| == AFS_MAXHOSTS
        invariant forall k :: 0 <= k < AFS_MAXHOSTS ==> skip[k] == (r.skip[k] || (k < i && (hosts[k] == server || FirstDown(r, k))))
      {
        if hosts[i] == server {
          skip := skip[i := true];
        }
        if |servers[hosts[i]]| > 0 && !servers[hosts[i]][0].up {
          skip := skip[i := true];
        }
        i := i + 1;
      }
      assert skip == Skipping(r, server).skip;
      left := false;
      i := 0;
      while i < |hosts| && !left
        invariant 0 <= i <= |hosts| && (left <==> exists k :: 0 <= k < i && !skip[k])
      {
        left := !skip[i];
        i := i + 1;
      }
    }

    /** afs_ServerDown on an address. */
    method ServerDown(server: nat, a: nat)
      requires server in servers && a < |servers[server]|
      modifies this`servers
      ensures S() == old(S()).(rep := Downed(old(S()).rep, server, a))
    {
      var addrs := servers[server];
      servers := servers[server := addrs[a := addrs[a].(up := false)]];
    }

    method AnalyzeIdle(server: nat, mayRepeat: bool) returns (retry: bool)
      requires Valid()
      modifies this`skip, this`idleError
      ensures Outcome(S(), retry) == Idled(kind, old(S()), server, mayRepeat)
    {
      var left := BlackListOnce(server);
      retry := left || !(kind.ro || kind.backup);
      if kind.ro {
        idleError := idleError + 1;
      } else if !mayRepeat {
        retry := false;
      }
    }

    method AnalyzeToken(server: nat, code: int, knownUser: bool)
      requires Valid()
      modifies this`skip, this`tokenError
      ensures S() == Unauthenticated(old(S()), server, code, knownUser)
    {
      if code != VICETOKENDEAD && code != RXKADEXPIRED && knownUser {
        var left := BlackListOnce(server);
        tokenError := tokenError + 1;
        if !left {
          tokenError := 0;
        }
      }
    }

    method AnalyzeMissing(server: nat, vldb: Vldb)
      requires Valid() && WfVldb(vldb)
      modifies this`status, this`volumeError, this`hosts, this`servers
      ensures S() == old(S()).(rep := Worsened(Moved(old(S()).rep, vldb), server, vldb.Different?), volumeError := VOLMISSING)
    {
      volumeError := VOLMISSING;
      if vldb.Different? {
        hosts, servers := vldb.hosts, vldb.servers;
      }
      MarkMissing(server, !vldb.Different?);
    }

    /** afs_Analyze from a failure code up to where the connection is put back. */
    method AnalyzeFailure(h: nat, a: nat, r: Reply) returns (retry: bool)
      requires Valid() && IsAddr(S(), h, a) && WfVldb(r.vldb) && !r.lost && r.code != 0
      modifies this
      ensures Outcome(S(), retry) == Analyzed(kind, old(S()), h, a, r)
    {
      retry := false;
      var server := hosts[h];
      if r.code == RX_MSGSIZE {
        retry := true;
      } else if IsIdle(r.code) {
        retry := AnalyzeIdle(server, r.mayRepeat);
      } else if r.code == VBUSY || r.code == VRESTARTING {
        busyCount := if r.code == VBUSY then busyCount + 1 else 1;
        SetStatus(server, RDWR_BUSY);
        retry := true;
      } else if IsToken(r.code) {
        AnalyzeToken(server, r.code, r.knownUser);
        retry := true;
      } else if r.code == EACCES {
        accessError := true;
      } else if IsMissing(r.code) {
        AnalyzeMissing(server, r.vldb);
        retry := true;
      } else if IsVlserver(r.code) {
        volumeError := VOLMISSING;
      } else if IsDown(r.code) {
        ServerDown(server, a);
        retry := true;
      }
    }

    /** afs_Analyze without a server. */
    method AnalyzeUnserved(code: int) returns (retry: bool)
      modifies this`networkError
      ensures Outcome(S(), retry) == Unserved(old(S()), code)
    {
      retry := false;
      if volumeError == 0 {
        if code == RX_MSGSIZE {
          retry := true;
        } else {
          networkError := true;
        }
      }
    }

    /** afs_Analyze after a call.  The connection is put back where its server has gone, after a
        success, and at the end: once on every path. */
    method AnalyzeCall(h: nat, a: nat, c: Connections.Conn, r: Reply) returns (retry: bool)
      requires Valid() && IsAddr(S(), h, a) && WfVldb(r.vldb) && pool.Valid() && c in pool.held
      modifies this, pool
      ensures Outcome(S(), retry) == Analyzed(kind, old(S()), h, a, r)
      ensures pool.Valid() && pool.held == old(pool.held) - multiset{c}
    {
      if r.lost {
        retry := AnalyzeUnserved(r.code);
        pool.Put(c);
        return;
      }
      if r.code == 0 {
        if volumeError != 0 {
          SetStatus(hosts[h], NOT_BUSY);
        }
        pool.Put(c);
        return false;
      }
      retry := AnalyzeFailure(h, a, r);
      pool.Put(c);
    }

    /** afs_Analyze when there was no host to call. */
    method AnalyzeNoConnection() returns (retry: bool)
      requires Valid()
      modifies this
      ensures Outcome(S(), retry) == Unconnected(old(S()))
    {
      if busyCount > 0 {
        retry := WaitForBusy();
      } else {
        retry := AnalyzeUnserved(-1);
      }
    }

    // ---------------------------------------------------------------- the caller's loop

    /** One turn of the loop.  The connection that it took has been put back. */
    method CallOnce(r: Reply) returns (called: bool, retry: bool)
      requires Valid() && WfVldb(r.vldb) && pool.Valid()
      modifies this, pool
      ensures Turn(kind, old(S()), r, Outcome(S(), retry)) && (called <==> AnyUsable(old(S())))
      ensures Valid() && pool.Valid() && pool.held == old(pool.held)
    {
      ghost var s, held := S(), pool.held;
      var h, a, c;
      called, h, a, c := Connect();
      if called {
        ChosenAddr(s, h, a);
        retry := AnalyzeCall(h, a, c, r);
        TurnCalled(kind, s, h, a, r);
        PutAgain(held, c);
      } else {
        retry := AnalyzeNoConnection();
        TurnUncalled(kind, s, r);
      }
    }

    /** A turn in the loop, with so many changes of the VLDB entry to come. */
    method NextTurn(r: Reply, ghost left: nat, ghost cap: nat) returns (called: bool, retry: bool, code: int)
      requires Valid() && WfVldb(r.vldb) && pool.Valid() && Bounded(r, kind.ro) && Within(r, cap) && Cap(S()) <= cap
      requires Changes(r) ==> left > 0
      modifies this, pool
      ensures Valid() && pool.Valid() && pool.held == old(pool.held) && code == if called then r.code else -1
      ensures retry ==> Cap(S()) <= cap && Purse(ToCome(left, r), S(), cap) < old(Purse(left, S(), cap))
      ensures !retry ==> EndsWith(kind, S(), called, r)
    {
      ghost var s := S();
      called, retry := CallOnce(r);
      code := if called then r.code else -1;
      if retry {
        PursePays(kind, s, r, Outcome(S(), true), cap, left, ToCome(left, r));
      } else {
        EndMeans(kind, s, r, Outcome(S(), false));
      }
    }

    /** The caller's loop: connect, call, analyze, until afs_Analyze says to stop.  Provided no
        outcome is one that is repeated without bound, it stops within 102 times the size of the
        volume's list of addresses, and as many again for each change of the VLDB entry. */
    method CallLoop(replies: nat -> Reply, ghost changes: nat, ghost cap: nat) returns (called: bool, code: int, turns: nat)
      requires Valid() && pool.Valid() && Cap(S()) <= cap
      requires forall n :: WfVldb(replies(n).vldb) && Bounded(replies(n), kind.ro) && Within(replies(n), cap)
      requires forall n :: ChangesBefore(replies, n) <= changes
      modifies this, pool
      ensures Valid() && pool.Valid() && pool.held == old(pool.held)
      ensures 0 < turns <= (changes + 1) * Round(cap) && code == if called then replies(turns - 1).code else -1
      ensures EndsWith(kind, S(), called, replies(turns - 1))
    {
      var retry := true;
      called, code, turns := false, -1, 0;
      ghost var all, left := Purse(changes, S(), cap), changes;
      PurseLimit(changes, S(), cap);
      while retry
        invariant Valid() && pool.Valid() && pool.held == old(pool.held) && left + ChangesBefore(replies, turns) == changes
        invariant retry ==> Cap(S()) <= cap && turns + Purse(left, S(), cap) <= all
        invariant !retry ==> 0 < turns <= all + 1 && code == if called then replies(turns - 1).code else -1
        invariant !retry ==> EndsWith(kind, S(), called, replies(turns - 1))
        decreases retry, if retry then Purse(left, S(), cap) else 0
      {
        assert ChangesBefore(replies, turns + 1) <= changes;
        called, retry, code := NextTurn(replies(turns), left, cap);
        left := ToCome(left, replies(turns));
        turns := turns + 1;
      }
    }
  }

  // ---------------------------------------------------------------- the turns

  lemma PutAgain(held: multiset<Connections.Conn>, c: Connections.Conn)
    ensures held + multiset{c} - multiset{c} == held
  {
  }

  lemma ChosenAddr(s: Req, h: nat, a: nat)
    requires Wf(s.rep) && Chosen(s, h, a)
    ensures Wf(Searched(s).rep) && IsAddr(Searched(s), h, a)
  {
  }

  lemma TurnCalled(k: Kind, s: Req, h: nat, a: nat, r: Reply)
    requires Wf(s.rep) && WfVldb(r.vldb) && Chosen(s, h, a)
    ensures IsAddr(Searched(s), h, a) && AnyUsable(s)
    ensures var o := Analyzed(k, Searched(s), h, a, r); Turn(k, s, r, o) && Wf(o.req.rep)
  {
    assert InUse(s, h, a);
  }

  lemma TurnUncalled(k: Kind, s: Req, r: Reply)
    requires Wf(s.rep) && WfVldb(r.vldb) && !AnyUsable(s)
    ensures var o := Unconnected(Searched(s)); Turn(k, s, r, o) && Wf(o.req.rep)
  {
  }

  // ---------------------------------------------------------------- how the loop ends

  function ChangesBefore(replies: nat -> Reply, n: nat): nat
  {
    if n == 0 then 0 else ChangesBefore(replies, n - 1) + if Changes(replies(n - 1)) then 1 else 0
  }

  /** The retries that are still possible, with so many changes of the VLDB entry to come. */
  function Purse(changes: nat, s: Req, cap: nat): nat
    requires Wf(s.rep)
  {
    Rounds(changes, cap) + Budget(s, cap)
  }

  function Rounds(n: nat, cap: nat): nat
  {
    if n == 0 then 0 else Rounds(n - 1, cap) + Round(cap)
  }

  lemma {:induction false} RoundsTimes(n: nat, cap: nat)
    ensures Rounds(n, cap) == n * Round(cap)
  {
    if n > 0 {
      RoundsTimes(n - 1, cap);
      OneMore(n - 1, Round(cap));
    }
  }

  function ToCome(changes: nat, r: Reply): nat
    requires Changes(r) ==> changes > 0
  {
    if Changes(r) then changes - 1 else changes
  }

  lemma PurseLimit(changes: nat, s: Req, cap: nat)
    requires Wf(s.rep) && Cap(s) <= cap
    ensures Purse(changes, s, cap) < (changes + 1) * Round(cap)
  {
    BudgetLimit(s, cap);
    RoundsTimes(changes + 1, cap);
  }

  lemma PursePays(k: Kind, s: Req, r: Reply, o: Outcome, cap: nat, before: nat, after: nat)
    requires Wf(s.rep) && WfVldb(r.vldb) && Bounded(r, k.ro) && Within(r, cap) && Cap(s) <= cap
    requires Turn(k, s, r, o) && o.retry && (Changes(r) ==> before > 0) && after == ToCome(before, r)
    ensures Wf(o.req.rep) && Cap(o.req) <= cap
    ensures Purse(after, o.req, cap) < Purse(before, s, cap)
  {
    TurnPays(k, s, r, o, cap);
  }

  /** A call whose outcome is final was not busy, missing or down, unless its server has gone, and
      if it idled out on a read-only volume every host has been skipped; without a call, the volume
      or the network is at fault, or every replica is offline. */
  predicate EndsWith(k: Kind, s: Req, called: bool, r: Reply)
    requires Wf(s.rep)
  {
    if called && !r.lost then
      && r.code !in {VBUSY, VRESTARTING, RX_MSGSIZE} && !IsToken(r.code) && !IsMissing(r.code) && !IsDown(r.code)
      && (k.ro && r.code in {RX_CALL_TIMEOUT, VNOSERVICE} ==> forall i :: 0 <= i < |s.rep.hosts| ==> s.rep.skip[i])
      && (r.code == EACCES ==> s.accessError)
    else s.volumeError != 0 || s.networkError || forall i :: 0 <= i < |s.rep.hosts| ==> s.rep.status[i] == OFFLINE
  }

  lemma EndMeans(k: Kind, s: Req, r: Reply, o: Outcome)
    requires Wf(s.rep) && WfVldb(r.vldb) && Turn(k, s, r, o) && !o.retry
    ensures Wf(o.req.rep) && EndsWith(k, o.req, AnyUsable(s), r)
  {
  }

  // ---------------------------------------------------------------- steps of the search

  lemma NextAddress(s: Req, level: nat, found: bool, h: nat, a: nat, i: nat, j: nat)
    requires Wf(s.rep) && IsAddr(s, i, j) && !Skipped(s, i) && s.rep.status[i] == level
    requires FoundSoFar(s, level, found, h, a, i, j)
    ensures var up := s.rep.servers[s.rep.hosts[i]][j].up;
            if up && (!found || Rank(s, h, a) > Rank(s, i, j)) then FoundSoFar(s, level, true, i, j, i, j + 1)
            else FoundSoFar(s, level, found, h, a, i, j + 1)
  {
    assert forall x: nat, y: nat :: Before(x, y, i, j + 1) ==> Before(x, y, i, j) || (x == i && y == j);
  }

  lemma LastAddress(s: Req, level: nat, found: bool, h: nat, a: nat, i: nat)
    requires Wf(s.rep) && i < |s.rep.hosts|
    requires FoundSoFar(s, level, found, h, a, i, |s.rep.servers[s.rep.hosts[i]]|)
    ensures FoundSoFar(s, level, found, h, a, i + 1, 0)
  {
    var m := |s.rep.servers[s.rep.hosts[i]]|;
    assert forall x: nat, y: nat :: IsAddr(s, x, y) && Before(x, y, i + 1, 0) ==> Before(x, y, i, m);
  }

  lemma PassOver(s: Req, level: nat, found: bool, h: nat, a: nat, i: nat)
    requires Wf(s.rep) && i < |s.rep.hosts| && (Skipped(s, i) || s.rep.status[i] != level)
    requires FoundSoFar(s, level, found, h, a, i, 0)
    ensures FoundSoFar(s, level, found, h, a, i + 1, 0)
  {
    assert forall x: nat, y: nat :: Before(x, y, i + 1, 0) ==> Before(x, y, i, 0) || x == i;
  }

  lemma SameFound(s: Req, t: Req, level: nat, found: bool, h: nat, a: nat, n: nat)
    requires Wf(s.rep) && SameChoices(s, t) && FoundSoFar(s, level, found, h, a, n, 0)
    ensures FoundSoFar(t, level, found, h, a, n, 0)
  {
    assert forall i: nat, j: nat :: IsAddr(s, i, j) ==> (Usable(s, level, i, j) <==> Usable(t, level, i, j));
  }

  lemma NoneAtLevel(s: Req, level: nat)
    requires Wf(s.rep) && NoneBelow(s, level) && NoneUsable(s, level, |s.rep.hosts|, 0)
    ensures NoneBelow(s, level + 1)
  {
    assert forall i: nat, j: nat :: IsAddr(s, i, j) ==> Before(i, j, |s.rep.hosts|, 0);
  }
}
