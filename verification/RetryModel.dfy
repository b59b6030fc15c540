/** What afs_Conn and afs_Analyze make of a request, as functions of its state, and what that
    means for the calls that are made again: for soft mounts in connected mode. */
module RetryModel {
  import opened RetryMeasure

  // values of areq->volumeError
  const VOLMISSING: int := 1
  const VOLBUSY: int := 2

  // reply codes
  const RX_CALL_TIMEOUT: int := -3
  const RX_MSGSIZE: int := -8
  const VRESTARTING: int := -100
  const EACCES: int := 13
  const VSALVAGE: int := 101
  const VNOVOL: int := 103
  const VNOSERVICE: int := 105
  const VOFFLINE: int := 106
  const VBUSY: int := 110
  const VMOVED: int := 111
  const ERROR_TABLE_BASE_U: int := 5376
  const ERROR_TABLE_BASE_VL: int := 363520
  const VICETOKENDEAD: int := 1235
  const ERROR_TABLE_BASE_RXK: int := 19270400
  const RXKADEXPIRED: int := 19270409

  /** What VLDB_Same learns: the same hosts, nothing, or a new list of hosts and servers. */
  datatype Vldb = Same | Dunno | Different(hosts: seq<nat>, servers: map<nat, seq<Addr>>)

  /** The outcome of a call: its code, what a VLDB lookup would say now, whether
      afs_ClearStatus would allow the operation to be repeated, whether the caller has a user
      record in the cell, and whether the connection has lost its server meanwhile. */
  datatype Reply = Reply(code: int, vldb: Vldb, mayRepeat: bool, knownUser: bool, lost: bool)

  predicate WfVldb(v: Vldb)
  {
    v.Different? ==> |v.hosts| <= AFS_MAXHOSTS && forall i :: 0 <= i < |v.hosts| ==> v.hosts[i] in v.servers
  }

  predicate IsMissing(code: int)
  {
    code == VSALVAGE || code == VOFFLINE || code == VNOVOL || code == VMOVED
  }

  predicate IsIdle(code: int)
  {
    code == RX_CALL_TIMEOUT || code == VNOSERVICE
  }

  predicate IsUbik(code: int)
  {
    ERROR_TABLE_BASE_U <= code < ERROR_TABLE_BASE_U + 255
  }

  predicate IsToken(code: int)
  {
    code == VICETOKENDEAD || ERROR_TABLE_BASE_RXK <= code <= ERROR_TABLE_BASE_RXK + 255
  }

  /** Codes after which afs_Analyze takes the address for down. */
  predicate IsDown(code: int)
  {
    (code < 0 && code != VRESTARTING && code != RX_MSGSIZE && !IsIdle(code) && code != -455) || IsUbik(code)
  }

  predicate IsVlserver(code: int)
  {
    ERROR_TABLE_BASE_VL <= code <= ERROR_TABLE_BASE_VL + 255
  }

  /** VRO and VBackup of the volume. */
  datatype Kind = Kind(ro: bool, backup: bool)

  /** The volume's replicas and the fields of struct vrequest. */
  datatype Req = Req(rep: Replicas, busyCount: nat, idleError: nat, tokenError: nat, volumeError: int,
                     networkError: bool, accessError: bool)

  datatype Outcome = Outcome(req: Req, retry: bool)

  // ---------------------------------------------------------------- afs_Conn

  predicate Skipped(s: Req, i: nat)
    requires i < |s.rep.skip|
  {
    (s.idleError > 0 || s.tokenError > 0) && s.rep.skip[i]
  }

  predicate IsAddr(s: Req, i: int, j: int)
    requires Wf(s.rep)
  {
    0 <= i < |s.rep.hosts| && 0 <= j < |s.rep.servers[s.rep.hosts[i]]|
  }

  /** Host i may be asked, at address j, at the given level of not_busy. */
  predicate Usable(s: Req, level: nat, i: nat, j: nat)
    requires Wf(s.rep) && IsAddr(s, i, j)
  {
    s.rep.servers[s.rep.hosts[i]][j].up && !Skipped(s, i) && s.rep.status[i] == level
  }

  function Rank(s: Req, i: nat, j: nat): nat
    requires Wf(s.rep) && IsAddr(s, i, j)
  {
    s.rep.servers[s.rep.hosts[i]][j].rank
  }

  /** Some call can be made at address (h, a). */
  predicate InUse(s: Req, h: nat, a: nat)
    requires Wf(s.rep)
  {
    IsAddr(s, h, a) && s.rep.status[h] <= END_NOT_BUSY && Usable(s, s.rep.status[h], h, a)
  }

  ghost predicate AnyUsable(s: Req)
    requires Wf(s.rep)
  {
    exists i: nat, j: nat :: InUse(s, i, j)
  }

  /** Host 0 at its first address is taken without a search if it is good. */
  predicate Shortcut(s: Req)
    requires Wf(s.rep)
  {
    IsAddr(s, 0, 0) && Usable(s, NOT_BUSY, 0, 0)
  }

  predicate IsSeen(s: Req, i: nat, busy: bool)
    requires Wf(s.rep) && i < |s.rep.hosts|
  {
    !Skipped(s, i) && if busy then s.rep.status[i] == RD_BUSY || s.rep.status[i] == RDWR_BUSY else s.rep.status[i] == OFFLINE
  }

  /** One of the first n hosts is busy, or offline, and not skipped. */
  ghost predicate Seen(s: Req, n: nat, busy: bool)
    requires Wf(s.rep) && n <= |s.rep.hosts|
  {
    exists i :: 0 <= i < n && IsSeen(s, i, busy)
  }

  /** What a search through the first n hosts notes in the request about busy and offline ones. */
  ghost function Noted(s: Req, n: nat): Req
    requires Wf(s.rep) && n <= |s.rep.hosts|
  {
    s.(busyCount := if s.busyCount == 0 && Seen(s, n, true) then 1 else s.busyCount,
       volumeError := if s.volumeError == 0 && Seen(s, n, false) then VOLMISSING else s.volumeError)
  }

  /** (i, j) comes before (h, a) in the search. */
  predicate Before(i: nat, j: nat, h: nat, a: nat)
  {
    i < h || (i == h && j < a)
  }

  /** Of the addresses usable at the level and met before (n, m), (h, a) is the first of the
      lowest rank. */
  ghost predicate Best(s: Req, level: nat, h: nat, a: nat, n: nat, m: nat)
    requires Wf(s.rep)
  {
    && IsAddr(s, h, a) && Usable(s, level, h, a)
    && (forall i: nat, j: nat | IsAddr(s, i, j) && Usable(s, level, i, j) && Before(i, j, n, m) ::
          Rank(s, h, a) <= Rank(s, i, j) && (Before(i, j, h, a) ==> Rank(s, h, a) < Rank(s, i, j)))
  }

  /** No address met before (n, m) is usable at the level. */
  ghost predicate NoneUsable(s: Req, level: nat, n: nat, m: nat)
    requires Wf(s.rep)
  {
    forall i: nat, j: nat | IsAddr(s, i, j) && Before(i, j, n, m) :: !Usable(s, level, i, j)
  }

  /** No address is usable at a lower level. */
  ghost predicate NoneBelow(s: Req, level: nat)
    requires Wf(s.rep)
  {
    forall i: nat, j: nat | IsAddr(s, i, j) && s.rep.status[i] < level :: !Usable(s, s.rep.status[i], i, j)
  }

  /** The address that afs_Conn chooses: host 0's first if it is good, else the first of the
      lowest rank at the lowest level at which any is usable. */
  ghost predicate Chosen(s: Req, h: nat, a: nat)
    requires Wf(s.rep)
  {
    && InUse(s, h, a)
    && if Shortcut(s) then h == a == 0
       else NoneBelow(s, s.rep.status[h]) && Best(s, s.rep.status[h], h, a, |s.rep.hosts|, 0)
  }

  lemma ChosenUnique(s: Req, h: nat, a: nat, i: nat, j: nat)
    requires Wf(s.rep) && Chosen(s, h, a) && Chosen(s, i, j)
    ensures h == i && a == j
  {
    if !Shortcut(s) {
      assert s.rep.status[h] == s.rep.status[i];
      assert Before(h, a, |s.rep.hosts|, 0) && Before(i, j, |s.rep.hosts|, 0);
      assert !Before(h, a, i, j) && !Before(i, j, h, a);
    }
  }

  /** The request after afs_Conn. */
  ghost function Searched(s: Req): Req
    requires Wf(s.rep)
  {
    if Shortcut(s) then s else Noted(s, |s.rep.hosts|)
  }

  // ---------------------------------------------------------------- afs_Analyze

  /** Waiting for a busy volume: every replica that is not offline is eligible again. */
  function Reset(r: Replicas): Replicas
    requires Wf(r)
  {
    r.(status := seq(AFS_MAXHOSTS, i requires 0 <= i < AFS_MAXHOSTS => if r.status[i] == OFFLINE then OFFLINE else NOT_BUSY))
  }

  predicate AnyOnline(r: Replicas)
    requires Wf(r)
  {
    exists i :: 0 <= i < AFS_MAXHOSTS && r.status[i] != OFFLINE
  }

  /** afs_Analyze without a connection although some call has met a busy volume: it retries
      until 100 waits are over. */
  function Waited(s: Req): Outcome
    requires Wf(s.rep)
  {
    var retry := s.busyCount <= 100 && AnyOnline(s.rep);
    Outcome(s.(rep := Reset(s.rep), busyCount := if retry then s.busyCount + 1 else s.busyCount,
               volumeError := if s.busyCount > 100 then VOLBUSY else s.volumeError),
            retry)
  }

  /** afs_Analyze without a server. */
  function Unserved(s: Req, code: int): Outcome
  {
    if s.volumeError != 0 then Outcome(s, false)
    else if code == RX_MSGSIZE then Outcome(s, true)
    else Outcome(s.(networkError := true), false)
  }

  function Unconnected(s: Req): Outcome
    requires Wf(s.rep)
  {
    if s.busyCount > 0 then Waited(s) else Unserved(s, -1)
  }

  /** Every replica on one server gets the status. */
  function WithStatus(r: Replicas, server: nat, st: nat): Replicas
    requires Wf(r)
  {
    r.(status := seq(AFS_MAXHOSTS, i requires 0 <= i < AFS_MAXHOSTS =>
                       if i < |r.hosts| && r.hosts[i] == server then st else r.status[i]))
  }

  /** The next worse status after a missing volume. */
  function Worse(st: nat): nat
  {
    if st == END_NOT_BUSY then OFFLINE else st + 1
  }

  /** After a missing volume the server's replicas move one level towards offline; if the VLDB
      had changed the hosts are new and the others start afresh. */
  function Worsened(r: Replicas, server: nat, afresh: bool): Replicas
    requires Wf(r)
  {
    r.(status := seq(AFS_MAXHOSTS, i requires 0 <= i < AFS_MAXHOSTS =>
                       if i >= |r.hosts| then r.status[i]
                       else if r.hosts[i] == server then Worse(r.status[i])
                       else if afresh then NOT_BUSY else r.status[i]))
  }

  function Moved(r: Replicas, v: Vldb): Replicas
  {
    if v.Different? then r.(hosts := v.hosts, servers := v.servers) else r
  }

  predicate FirstDown(r: Replicas, i: nat)
    requires Wf(r) && i < |r.hosts|
  {
    |r.servers[r.hosts[i]]| > 0 && !r.servers[r.hosts[i]][0].up
  }

  /** afs_BlackListOnce: skips the server and every server whose first address is down. */
  function Skipping(r: Replicas, server: nat): Replicas
    requires Wf(r)
  {
    r.(skip := seq(AFS_MAXHOSTS, i requires 0 <= i < AFS_MAXHOSTS =>
                     r.skip[i] || (i < |r.hosts| && (r.hosts[i] == server || FirstDown(r, i)))))
  }

  predicate SomeLeft(r: Replicas)
    requires Wf(r)
  {
    exists i :: 0 <= i < |r.hosts| && !r.skip[i]
  }

  /** afs_ServerDown on an address. */
  function Downed(r: Replicas, server: nat, a: nat): Replicas
    requires server in r.servers && a < |r.servers[server]|
  {
    r.(servers := r.servers[server := r.servers[server][a := r.servers[server][a].(up := false)]])
  }

  /** After an idle timeout or a busy server: try the other replicas of a read-only volume,
      repeat what can be repeated on a read-write one. */
  function Idled(k: Kind, s: Req, server: nat, mayRepeat: bool): Outcome
    requires Wf(s.rep)
  {
    var r := Skipping(s.rep, server);
    Outcome(s.(rep := r, idleError := if k.ro then s.idleError + 1 else s.idleError),
            (SomeLeft(r) || !(k.ro || k.backup)) && (k.ro || mayRepeat))
  }

  /** After a token error: retried without the bad token. */
  function Unauthenticated(s: Req, server: nat, code: int, knownUser: bool): Req
    requires Wf(s.rep)
  {
    if code == VICETOKENDEAD || code == RXKADEXPIRED || !knownUser then s
    else
      var r := Skipping(s.rep, server);
      s.(rep := r, tokenError := if SomeLeft(r) then s.tokenError + 1 else 0)
  }

  /** afs_Analyze on the outcome of a call to address (h, a). */
  function Analyzed(k: Kind, s: Req, h: nat, a: nat, r: Reply): (o: Outcome)
    requires Wf(s.rep) && IsAddr(s, h, a) && WfVldb(r.vldb)
    ensures Wf(o.req.rep)
  {
    var server := s.rep.hosts[h];
    if r.lost then Unserved(s, r.code)
    else if r.code == 0 then
      Outcome(if s.volumeError != 0 then s.(rep := WithStatus(s.rep, server, NOT_BUSY)) else s, false)
    else if r.code == RX_MSGSIZE then Outcome(s, true)
    else if IsIdle(r.code) then Idled(k, s, server, r.mayRepeat)
    else if r.code == VBUSY || r.code == VRESTARTING then
      Outcome(s.(rep := WithStatus(s.rep, server, RDWR_BUSY), busyCount := if r.code == VBUSY then s.busyCount + 1 else 1), true)
    else if IsToken(r.code) then Outcome(Unauthenticated(s, server, r.code, r.knownUser), true)
    else if r.code == EACCES then Outcome(s.(accessError := true), false)
    else if IsMissing(r.code) then
      Outcome(s.(rep := Worsened(Moved(s.rep, r.vldb), server, r.vldb.Different?), volumeError := VOLMISSING), true)
    else if IsVlserver(r.code) then Outcome(s.(volumeError := VOLMISSING), false)
    else if IsDown(r.code) then Outcome(s.(rep := Downed(s.rep, server, a)), true)
    else Outcome(s, false)
  }

  // ---------------------------------------------------------------- turns of the caller's loop

  /** One turn: connect, call, analyze. */
  ghost predicate Turn(k: Kind, s: Req, r: Reply, o: Outcome)
    requires Wf(s.rep) && WfVldb(r.vldb)
  {
    var c := Searched(s);
    if AnyUsable(s) then exists h: nat, a: nat :: Chosen(s, h, a) && o == Analyzed(k, c, h, a, r)
    else o == Unconnected(c)
  }

  /** A missing volume whose VLDB entry has changed. */
  predicate Changes(r: Reply)
  {
    !r.lost && IsMissing(r.code) && r.vldb.Different?
  }

  /** Outcomes whose repetition afs_Analyze bounds by itself. */
  predicate Bounded(r: Reply, ro: bool)
  {
    && r.code != RX_MSGSIZE
    && (r.lost || (r.code != VRESTARTING && !IsToken(r.code) && (IsIdle(r.code) ==> ro || !r.mayRepeat)))
  }

  /** What is left of the replicas, counting that no call has idled out yet. */
  function Rest(s: Req): nat
    requires Wf(s.rep)
  {
    Sum(s.rep) + if s.idleError == 0 then 1 else 0
  }

  function Cap(s: Req): nat
    requires Wf(s.rep)
  {
    Limit(s.rep, |s.rep.hosts|)
  }
}
