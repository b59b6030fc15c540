/** What a retry loop over the replicas of a volume runs down: how far each replica still is
    from being given up, how many of its server's addresses are still up, and whether it has
    been skipped. */
module RetryMeasure {

  const AFS_MAXHOSTS: nat := 13

  // enum repstate
  const NOT_BUSY: nat := 0
  const END_NOT_BUSY: nat := 6
  const RD_BUSY: nat := 7
  const RDWR_BUSY: nat := 8
  const OFFLINE: nat := 9

  /** A server address: not SRVR_ISDOWN, and its preference rank. */
  datatype Addr = Addr(up: bool, rank: nat)

  /** The volume's hosts (the used prefix of serverHost), their status, their servers'
      addresses and the request's skip list. */
  datatype Replicas = Replicas(hosts: seq<nat>, status: seq<nat>, servers: map<nat, seq<Addr>>, skip: seq<bool>)

  predicate Wf(r: Replicas)
  {
    && |r.hosts| <= AFS_MAXHOSTS == |r.status| == |r.skip|
    && forall i :: 0 <= i < |r.hosts| ==> r.hosts[i] in r.servers
  }

  /** Levels left before a replica is busy or offline. */
  function Left(status: nat): nat
  {
    if status > END_NOT_BUSY then 0 else END_NOT_BUSY + 1 - status
  }

  function CountUp(addrs: seq<Addr>): nat
  {
    if addrs == [] then 0 else (if addrs[0].up then 1 else 0) + CountUp(addrs[1..])
  }

  function Weight(r: Replicas, i: nat): nat
    requires Wf(r) && i < |r.hosts|
  {
    Left(r.status[i]) + CountUp(r.servers[r.hosts[i]]) + if r.skip[i] then 0 else 1
  }

  function Total(r: Replicas, n: nat): nat
    requires Wf(r) && n <= |r.hosts|
  {
    if n == 0 then 0 else Total(r, n - 1) + Weight(r, n - 1)
  }

  function Sum(r: Replicas): nat
    requires Wf(r)
  {
    Total(r, |r.hosts|)
  }

  /** The busy counter's share: it stops mattering once it has passed 100. */
  function BusyLeft(busyCount: nat): nat
  {
    if busyCount > 100 then 0 else 101 - busyCount
  }

  lemma {:induction false} TotalMonotone(r: Replicas, s: Replicas, n: nat)
    requires Wf(r) && Wf(s) && r.hosts == s.hosts && n <= |r.hosts|
    requires forall i :: 0 <= i < n ==> Weight(s, i) <= Weight(r, i)
    ensures Total(s, n) <= Total(r, n)
    ensures (exists i :: 0 <= i < n && Weight(s, i) < Weight(r, i)) ==> Total(s, n) < Total(r, n)
    decreases n
  {
    if n > 0 {
      TotalMonotone(r, s, n - 1);
    }
  }

  /** No replica got heavier and one got lighter. */
  lemma SumDecreases(r: Replicas, s: Replicas, k: nat)
    requires Wf(r) && Wf(s) && r.hosts == s.hosts && k < |r.hosts|
    requires forall i :: 0 <= i < |r.hosts| ==> Weight(s, i) <= Weight(r, i)
    requires Weight(s, k) < Weight(r, k)
    ensures Sum(s) < Sum(r)
  {
    TotalMonotone(r, s, |r.hosts|);
  }

  lemma {:induction false} DownCounts(addrs: seq<Addr>, a: nat)
    requires a < |addrs| && addrs[a].up
    ensures CountUp(addrs[a := addrs[a].(up := false)]) == CountUp(addrs) - 1
    decreases |addrs|
  {
    var d := addrs[a := addrs[a].(up := false)];
    if a == 0 {
      assert d[1..] == addrs[1..];
    } else {
      DownCounts(addrs[1..], a - 1);
      assert d[1..] == addrs[1..][a - 1 := addrs[a].(up := false)];
    }
  }

  // ---------------------------------------------------------------- how much there can be

  lemma {:induction false} CountUpLimit(addrs: seq<Addr>)
    ensures CountUp(addrs) <= |addrs|
  {
    if addrs != [] {
      CountUpLimit(addrs[1..]);
    }
  }

  /** The most the first n replicas can weigh, whatever happens to them. */
  function Limit(r: Replicas, n: nat): nat
    requires Wf(r) && n <= |r.hosts|
  {
    if n == 0 then 0 else Limit(r, n - 1) + END_NOT_BUSY + 2 + |r.servers[r.hosts[n - 1]]|
  }

  lemma {:induction false} TotalLimit(r: Replicas, n: nat)
    requires Wf(r) && n <= |r.hosts|
    ensures Total(r, n) <= Limit(r, n)
  {
    if n > 0 {
      TotalLimit(r, n - 1);
      CountUpLimit(r.servers[r.hosts[n - 1]]);
    }
  }

  lemma {:induction false} LimitSame(r: Replicas, s: Replicas, n: nat)
    requires Wf(r) && Wf(s) && r.hosts == s.hosts && n <= |r.hosts|
    requires forall i :: 0 <= i < n ==> |r.servers[r.hosts[i]]| == |s.servers[r.hosts[i]]|
    ensures Limit(r, n) == Limit(s, n)
  {
    if n > 0 {
      LimitSame(r, s, n - 1);
    }
  }
}
