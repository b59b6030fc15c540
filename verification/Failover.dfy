/** What afs_Analyze does with each outcome of a call, in terms of the hosts, their status and skip
    flags and which of their addresses are up, and whom the call is then made to. */
module Failover {
  import opened RetryMeasure
  import opened RetryModel
  import opened RetryRuns

  /** Nothing but the volume's status list and the skip list is different. */
  predicate SameHosts(s: Req, t: Req)
  {
    t.rep.hosts == s.rep.hosts && t.rep.servers == s.rep.servers && |t.rep.status| == |s.rep.status| && |t.rep.skip| == |s.rep.skip|
  }

  /** The counters and flags of the request are the same. */
  predicate SameCounts(s: Req, t: Req)
  {
    && t.busyCount == s.busyCount && t.idleError == s.idleError && t.tokenError == s.tokenError
    && t.volumeError == s.volumeError && t.networkError == s.networkError && t.accessError == s.accessError
  }

  /** Host i could be asked instead of host h: another server, not skipped so far, and not known to
      be down at its first address. */
  predicate Other(s: Req, h: nat, i: nat)
    requires Wf(s.rep) && h < |s.rep.hosts| && i < |s.rep.hosts|
  {
    var addrs := s.rep.servers[s.rep.hosts[i]];
    !s.rep.skip[i] && s.rep.hosts[i] != s.rep.hosts[h] && (addrs == [] || addrs[0].up)
  }

  /** At address j, which is up, and neither busy nor offline. */
  predicate OtherUp(s: Req, h: nat, i: nat, j: nat)
    requires Wf(s.rep) && h < |s.rep.hosts| && IsAddr(s, i, j)
  {
    Other(s, h, i) && s.rep.servers[s.rep.hosts[i]][j].up && s.rep.status[i] <= END_NOT_BUSY
  }

  ghost predicate AnyOther(s: Req, h: nat)
    requires Wf(s.rep) && h < |s.rep.hosts|
  {
    exists i :: 0 <= i < |s.rep.hosts| && Other(s, h, i)
  }

  /** Host h's server and those known to be down are skipped from now on, and no others. */
  ghost predicate SkipsServer(s: Req, t: Req, h: nat)
    requires Wf(s.rep) && Wf(t.rep) && h < |s.rep.hosts|
  {
    && SameHosts(s, t) && t.rep.status == s.rep.status
    && forall i :: 0 <= i < |s.rep.hosts| ==> (!t.rep.skip[i] <==> Other(s, h, i))
  }

  lemma SkippingSkips(s: Req, h: nat)
    requires Wf(s.rep) && h < |s.rep.hosts|
    ensures var t := s.(rep := Skipping(s.rep, s.rep.hosts[h])); SkipsServer(s, t, h) && (SomeLeft(t.rep) <==> AnyOther(s, h))
  {
    var t := s.(rep := Skipping(s.rep, s.rep.hosts[h]));
    if i :| 0 <= i < |s.rep.hosts| && Other(s, h, i) {
      assert !t.rep.skip[i];
    }
  }

  // ---------------------------------------------------------------- when the call is made again

  /** The call is made again if and only if the packet was too long, the volume was busy, being
      restarted or missing, the token was refused or the server is down; after an idle timeout, if the
      operation can be repeated or the volume is read-only, and a replicated one has a server left. */
  lemma RetriedExactly(k: Kind, s: Req, h: nat, a: nat, r: Reply)
    requires Wf(s.rep) && IsAddr(s, h, a) && WfVldb(r.vldb) && !r.lost
    ensures Analyzed(k, s, h, a, r).retry <==>
              || r.code in {RX_MSGSIZE, VBUSY, VRESTARTING, VSALVAGE, VOFFLINE, VNOVOL, VMOVED, VICETOKENDEAD}
              || 19270400 <= r.code <= 19270655 || 5376 <= r.code < 5631
              || (r.code < 0 && r.code != RX_CALL_TIMEOUT && r.code != -455)
              || (r.code in {RX_CALL_TIMEOUT, VNOSERVICE} && (k.ro || r.mayRepeat) && (k.ro || k.backup ==> AnyOther(s, h)))
  {
    SkippingSkips(s, h);
  }

  /** Without a server: only a packet that was too long is sent again, if the volume is not at fault. */
  lemma LostExactly(k: Kind, s: Req, h: nat, a: nat, r: Reply)
    requires Wf(s.rep) && IsAddr(s, h, a) && WfVldb(r.vldb) && r.lost
    ensures var o := Analyzed(k, s, h, a, r);
            && (o.retry <==> s.volumeError == 0 && r.code == RX_MSGSIZE)
            && o.req.rep == s.rep && SameCounts(s.(networkError := o.req.networkError), o.req)
            && (o.req.networkError <==> s.networkError || (s.volumeError == 0 && r.code != RX_MSGSIZE))
  {
  }

  // ---------------------------------------------------------------- what it leaves

  /** After a success the volume is no longer busy there. */
  lemma SuccessExactly(k: Kind, s: Req, h: nat, a: nat, r: Reply)
    requires Wf(s.rep) && IsAddr(s, h, a) && WfVldb(r.vldb) && !r.lost && r.code == 0
    ensures var t := Analyzed(k, s, h, a, r).req;
            && SameHosts(s, t) && SameCounts(s, t) && t.rep.skip == s.rep.skip
            && forall i :: 0 <= i < AFS_MAXHOSTS ==>
                 t.rep.status[i] == if s.volumeError != 0 && i < |s.rep.hosts| && s.rep.hosts[i] == s.rep.hosts[h] then NOT_BUSY
                                    else s.rep.status[i]
  {
  }

  lemma IdleExactly(k: Kind, s: Req, h: nat, a: nat, r: Reply)
    requires Wf(s.rep) && IsAddr(s, h, a) && WfVldb(r.vldb) && !r.lost && r.code in {RX_CALL_TIMEOUT, VNOSERVICE}
    ensures var t := Analyzed(k, s, h, a, r).req;
            && SkipsServer(s, t, h) && SameCounts(s.(idleError := t.idleError), t)
            && t.idleError == s.idleError + if k.ro then 1 else 0
  {
    SkippingSkips(s, h);
  }

  /** A busy or restarting server is busy for every replica it has. */
  lemma BusyExactly(k: Kind, s: Req, h: nat, a: nat, r: Reply)
    requires Wf(s.rep) && IsAddr(s, h, a) && WfVldb(r.vldb) && !r.lost && r.code in {VBUSY, VRESTARTING}
    ensures var t := Analyzed(k, s, h, a, r).req;
            && SameHosts(s, t) && t.rep.skip == s.rep.skip && SameCounts(s.(busyCount := t.busyCount), t)
            && t.busyCount == (if r.code == VBUSY then s.busyCount + 1 else 1)
            && forall i :: 0 <= i < AFS_MAXHOSTS ==>
                 t.rep.status[i] == if i < |s.rep.hosts| && s.rep.hosts[i] == s.rep.hosts[h] then RDWR_BUSY else s.rep.status[i]
  {
  }

  /** A server that refuses the token is passed over as long as others are left. */
  lemma TokenExactly(k: Kind, s: Req, h: nat, a: nat, r: Reply)
    requires Wf(s.rep) && IsAddr(s, h, a) && WfVldb(r.vldb) && !r.lost && IsToken(r.code)
    ensures var t := Analyzed(k, s, h, a, r).req;
            && SameCounts(s.(tokenError := t.tokenError), t)
            && (r.code in {VICETOKENDEAD, RXKADEXPIRED} || !r.knownUser ==> t == s)
            && (r.code !in {VICETOKENDEAD, RXKADEXPIRED} && r.knownUser ==>
                  SkipsServer(s, t, h) && t.tokenError == if AnyOther(s, h) then s.tokenError + 1 else 0)
  {
    SkippingSkips(s, h);
  }

  /** Where the volume is missing the server's replicas are worse off by one, offline in the end; if
      the hosts have changed the others start afresh. */
  lemma MissingExactly(k: Kind, s: Req, h: nat, a: nat, r: Reply)
    requires Wf(s.rep) && IsAddr(s, h, a) && WfVldb(r.vldb) && !r.lost && r.code in {VSALVAGE, VOFFLINE, VNOVOL, VMOVED}
    ensures var t := Analyzed(k, s, h, a, r).req;
            && SameCounts(s.(volumeError := VOLMISSING), t) && t.rep.skip == s.rep.skip
            && (if r.vldb.Different? then t.rep.hosts == r.vldb.hosts && t.rep.servers == r.vldb.servers else SameHosts(s, t))
            && forall i :: 0 <= i < AFS_MAXHOSTS ==>
                 && (i >= |t.rep.hosts| ==> t.rep.status[i] == s.rep.status[i])
                 && (i < |t.rep.hosts| && t.rep.hosts[i] == s.rep.hosts[h] ==>
                       t.rep.status[i] == if s.rep.status[i] == END_NOT_BUSY then OFFLINE else s.rep.status[i] + 1)
                 && (i < |t.rep.hosts| && t.rep.hosts[i] != s.rep.hosts[h] ==>
                       t.rep.status[i] == if r.vldb.Different? then NOT_BUSY else s.rep.status[i])
  {
  }

  /** A network error or one of the Ubik library takes that address of the server for down. */
  lemma DownExactly(k: Kind, s: Req, h: nat, a: nat, r: Reply)
    requires Wf(s.rep) && IsAddr(s, h, a) && WfVldb(r.vldb) && !r.lost
    requires 5376 <= r.code < 5631 || (r.code < 0 && r.code !in {VRESTARTING, RX_MSGSIZE, RX_CALL_TIMEOUT, -455})
    ensures var t, server := Analyzed(k, s, h, a, r).req, s.rep.hosts[h];
            && SameCounts(s, t) && t.rep.hosts == s.rep.hosts && t.rep.status == s.rep.status && t.rep.skip == s.rep.skip
            && t.rep.servers.Keys == s.rep.servers.Keys
            && (forall x :: x in s.rep.servers && x != server ==> t.rep.servers[x] == s.rep.servers[x])
            && |t.rep.servers[server]| == |s.rep.servers[server]|
            && forall j :: 0 <= j < |s.rep.servers[server]| ==>
                 && t.rep.servers[server][j].rank == s.rep.servers[server][j].rank
                 && t.rep.servers[server][j].up == (s.rep.servers[server][j].up && j != a)
  {
  }

  /** Everything else is the caller's to see. */
  lemma FinalExactly(k: Kind, s: Req, h: nat, a: nat, r: Reply)
    requires Wf(s.rep) && IsAddr(s, h, a) && WfVldb(r.vldb) && !r.lost && r.code != 0 && !Analyzed(k, s, h, a, r).retry
    requires r.code !in {RX_CALL_TIMEOUT, VNOSERVICE}
    ensures var t := Analyzed(k, s, h, a, r).req;
            && t.rep == s.rep && SameCounts(s.(accessError := t.accessError, volumeError := t.volumeError), t)
            && (t.accessError <==> s.accessError || r.code == EACCES)
            && t.volumeError == if 363520 <= r.code <= 363775 then VOLMISSING else s.volumeError
  {
  }

  /** Without anybody to call: the request waits for a busy volume, up to 100 times, as long as one
      replica is not offline, and then all of those may be asked again. */
  lemma UnconnectedExactly(s: Req)
    requires Wf(s.rep)
    ensures var o := Unconnected(s); var t := o.req;
            && SameHosts(s, t) && t.rep.skip == s.rep.skip
            && t.idleError == s.idleError && t.tokenError == s.tokenError && t.accessError == s.accessError
            && (o.retry <==> 0 < s.busyCount <= 100 && exists i :: 0 <= i < AFS_MAXHOSTS && s.rep.status[i] != OFFLINE)
            && t.busyCount == s.busyCount + (if o.retry then 1 else 0)
            && t.volumeError == (if s.busyCount > 100 then VOLBUSY else s.volumeError)
            && (t.networkError <==> s.networkError || (s.busyCount == 0 && s.volumeError == 0))
            && (s.busyCount == 0 ==> t.rep.status == s.rep.status)
            && (s.busyCount > 0 ==> forall i :: 0 <= i < AFS_MAXHOSTS ==>
                  t.rep.status[i] == if s.rep.status[i] == OFFLINE then OFFLINE else NOT_BUSY)
  {
  }

  /** A search that does not take the first host at once notes a busy and an offline volume that it comes by. */
  lemma SearchedExactly(s: Req)
    requires Wf(s.rep)
    ensures var t := Searched(s); var first := IsAddr(s, 0, 0) && Usable(s, NOT_BUSY, 0, 0);
            && SameCounts(s.(busyCount := t.busyCount, volumeError := t.volumeError), t) && t.rep == s.rep
            && t.busyCount == (if !first && s.busyCount == 0 && Met(s, {RD_BUSY, RDWR_BUSY}) then 1 else s.busyCount)
            && t.volumeError == (if !first && s.volumeError == 0 && Met(s, {OFFLINE}) then VOLMISSING else s.volumeError)
  {
    assert Seen(s, |s.rep.hosts|, true) <==> Met(s, {RD_BUSY, RDWR_BUSY}) by {
      assert forall i :: 0 <= i < |s.rep.hosts| ==> (IsSeen(s, i, true) <==> MetAt(s, {RD_BUSY, RDWR_BUSY}, i));
    }
    assert Seen(s, |s.rep.hosts|, false) <==> Met(s, {OFFLINE}) by {
      assert forall i :: 0 <= i < |s.rep.hosts| ==> (IsSeen(s, i, false) <==> MetAt(s, {OFFLINE}, i));
    }
  }

  predicate MetAt(s: Req, states: set<nat>, i: nat)
    requires Wf(s.rep) && i < |s.rep.hosts|
  {
    s.rep.status[i] in states && !(s.rep.skip[i] && (s.idleError > 0 || s.tokenError > 0))
  }

  /** A host that is not passed over has one of the states. */
  ghost predicate Met(s: Req, states: set<nat>)
    requires Wf(s.rep)
  {
    exists i :: 0 <= i < |s.rep.hosts| && MetAt(s, states, i)
  }

  // ---------------------------------------------------------------- who is asked next

  /** After an idle timeout of a read-only volume the server that timed out is not asked again, and
      a server that could be asked instead, at an address that is up, is not passed over for want
      of a choice. */
  lemma IdleFailsOver(k: Kind, s: Req, h: nat, a: nat, r: Reply)
    requires Wf(s.rep) && IsAddr(s, h, a) && WfVldb(r.vldb) && !r.lost && r.code in {RX_CALL_TIMEOUT, VNOSERVICE} && k.ro
    ensures var t := Analyzed(k, s, h, a, r).req;
            && (forall i: nat, j: nat :: Chosen(t, i, j) ==> t.rep.hosts[i] != s.rep.hosts[h])
            && (forall i: nat, j: nat :: IsAddr(s, i, j) && OtherUp(s, h, i, j) ==> exists x: nat, y: nat :: Chosen(t, x, y))
  {
    IdleExactly(k, s, h, a, r);
    var t := Analyzed(k, s, h, a, r).req;
    forall i: nat, j: nat | IsAddr(s, i, j) && OtherUp(s, h, i, j)
      ensures exists x: nat, y: nat :: Chosen(t, x, y)
    {
      assert InUse(t, i, j);
      var x, y := ChosenExists(t, i, j);
    }
  }

  /** Nor is a server asked again right after it was busy or refused the token while others are left,
      nor an address that has just failed. */
  lemma FailsOver(k: Kind, s: Req, h: nat, a: nat, r: Reply, i: nat, j: nat)
    requires Wf(s.rep) && IsAddr(s, h, a) && WfVldb(r.vldb) && !r.lost && Chosen(Analyzed(k, s, h, a, r).req, i, j)
    ensures var server := Analyzed(k, s, h, a, r).req.rep.hosts[i];
            && (r.code in {VBUSY, VRESTARTING} ==> server != s.rep.hosts[h])
            && (IsToken(r.code) && r.code !in {VICETOKENDEAD, RXKADEXPIRED} && r.knownUser && AnyOther(s, h) ==> server != s.rep.hosts[h])
            && (IsDown(r.code) ==> server != s.rep.hosts[h] || j != a)
  {
    if r.code in {VBUSY, VRESTARTING} {
      BusyExactly(k, s, h, a, r);
    } else if IsToken(r.code) {
      TokenExactly(k, s, h, a, r);
    } else if IsDown(r.code) {
      DownExactly(k, s, h, a, r);
    }
  }

  /** Where a volume is missing, every other replica as good as this one is asked before it. */
  lemma MissingFailsOver(k: Kind, s: Req, h: nat, a: nat, r: Reply, i: nat, j: nat, x: nat, y: nat)
    requires Wf(s.rep) && InUse(s, h, a) && WfVldb(r.vldb) && !r.lost && r.code in {VSALVAGE, VOFFLINE, VNOVOL, VMOVED}
    requires !r.vldb.Different? && InUse(s, x, y) && s.rep.hosts[x] != s.rep.hosts[h] && s.rep.status[x] <= s.rep.status[h]
    requires Chosen(Analyzed(k, s, h, a, r).req, i, j)
    ensures s.rep.hosts[i] != s.rep.hosts[h] || s.rep.status[i] < s.rep.status[h]
  {
    MissingExactly(k, s, h, a, r);
    var t := Analyzed(k, s, h, a, r).req;
    assert InUse(t, x, y);
  }
}
