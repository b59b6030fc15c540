/** Replaying what was done while disconnected: the dirty queue, what an entry waits for, and
    the order in which creations and removals reach the server. */
module Resync {
  import opened Seqs

  const EAGAIN: int := 11
  const ENETDOWN: int := 100

  /** The bits of ddirty_flags that decide anything here; Change stands for the others. */
  datatype Flag = Create | Created | Remove | Rename | Change

  /** Which vcaches are directories, whose parent vcache can be found, and the vcaches found
      through the entries of each directory's shadow. */
  datatype Graph = Graph(parent: map<nat, nat>, dirs: set<nat>, shadow: map<nat, set<nat>>)

  /** The dirty list, oldest entry first, and everyone's ddirty_flags. */
  datatype State = State(queue: seq<nat>, flags: map<nat, set<Flag>>)

  /** How one turn's lookups and calls end: finding the parent's fid and the entry's name in
      it, the five calls, and whether the server's copy is the one that was changed or the
      client is to win. */
  datatype Codes = Codes(name: int, create: int, remove: int, rename: int, fetch: int, store: int, sends: bool)

  datatype Event =
    | CreateRpc(v: nat, parent: nat, code: int)
    | RemoveRpc(v: nat, code: int)
    | RenameRpc(v: nat, code: int)
    | StoreRpc(v: nat, code: int)
    | Done(v: nat)

  function Flags(s: State, v: nat): set<Flag>
  {
    if v in s.flags then s.flags[v] else {}
  }

  function Kids(g: Graph, v: nat): set<nat>
  {
    if v in g.shadow then g.shadow[v] else {}
  }

  predicate Dirty(s: State, v: nat)
  {
    Flags(s, v) != {}
  }

  /** afs_GetParentVCache. */
  function ParentCode(g: Graph, s: State, v: nat, c: Codes): int
  {
    if c.name != 0 then c.name
    else if v !in g.parent then ENETDOWN
    else if Create in Flags(s, g.parent[v]) then EAGAIN
    else 0
  }

  /** afs_CheckDeletedChildren. */
  predicate DirtyKids(g: Graph, s: State, v: nat)
  {
    v in g.dirs && exists w :: w in Kids(g, v) && Dirty(s, w)
  }

  /** Turn of entry v: the final code, the flags it is left with, and what was sent. */
  datatype Turn = Turn(code: int, flags: set<Flag>, log: seq<Event>)

  /** afs_ProcessOpRemove. */
  function RemoveTurn(g: Graph, s: State, v: nat, c: Codes): Turn
  {
    var p := ParentCode(g, s, v, c);
    if p != 0 then Turn(p, Flags(s, v), [])
    else if DirtyKids(g, s, v) then Turn(EAGAIN, Flags(s, v), [])
    else Turn(c.remove, Flags(s, v), [RemoveRpc(v, c.remove)])
  }

  /** afs_ProcessOpCreate and the bookkeeping after it. */
  function CreateTurn(g: Graph, s: State, v: nat, c: Codes): Turn
  {
    var p := ParentCode(g, s, v, c);
    if p != 0 then Turn(p, Flags(s, v), [])
    else if c.create != 0 then Turn(c.create, Flags(s, v), [CreateRpc(v, g.parent[v], c.create)])
    else Turn(0, Flags(s, v) - {Create} + {Created}, [CreateRpc(v, g.parent[v], 0)])
  }

  /** Renaming, fetching the server's status and sending changes, once v exists there. */
  function ChangeTurn(flags: set<Flag>, v: nat, c: Codes): Turn
  {
    var log := if Rename in flags then [RenameRpc(v, c.rename)] else [];
    if Rename in flags && c.rename != 0 then Turn(c.rename, flags, log)
    else if c.fetch != 0 then Turn(c.fetch, flags, log)
    else if c.sends || Created in flags then Turn(c.store, flags, log + [StoreRpc(v, c.store)])
    else Turn(0, flags, log)
  }

  /** One entry's turn in afs_ResyncDisconFiles. */
  function Replay(g: Graph, s: State, v: nat, c: Codes): Turn
  {
    if Remove in Flags(s, v) then RemoveTurn(g, s, v, c)
    else if Create in Flags(s, v) then
      var made := CreateTurn(g, s, v, c);
      if made.code != 0 then made
      else var sent := ChangeTurn(made.flags, v, c); sent.(log := made.log + sent.log)
    else ChangeTurn(Flags(s, v), v, c)
  }

  /** The state after the turn of the oldest entry: gone, at the end of the list, or as it was. */
  function After(s: State, t: Turn): State
    requires s.queue != []
  {
    var v := s.queue[0];
    if t.code == 0 then State(s.queue[1..], s.flags[v := {}])
    else State(if t.code == EAGAIN then s.queue[1..] + [v] else s.queue, s.flags[v := t.flags])
  }

  /** A run: the state, what was sent and finished, and the last code. */
  datatype Sys = Sys(s: State, log: seq<Event>, code: int)

  predicate Running(y: Sys)
  {
    y.s.queue != [] && (y.code == 0 || y.code == EAGAIN)
  }

  function Step(g: Graph, y: Sys, c: Codes): Sys
  {
    if !Running(y) then y else
      var v := y.s.queue[0];
      var t := Replay(g, y.s, v, c);
      Sys(After(y.s, t), y.log + t.log + (if t.code == 0 then [Done(v)] else []), t.code)
  }

  function Run(g: Graph, s: State, cs: seq<Codes>): Sys
  {
    if cs == [] then Sys(s, [], 0) else Step(g, Run(g, s, cs[..|cs| - 1]), cs[|cs| - 1])
  }

  /** v cannot be replayed before w: its parent is still to be created, or it is a directory to
      be removed and w, once in it, still has changes of its own. */
  predicate Waits(g: Graph, s: State, v: nat, w: nat)
  {
    || ((Remove in Flags(s, v) || Create in Flags(s, v)) && v in g.parent && g.parent[v] == w && Create in Flags(s, w))
    || (Remove in Flags(s, v) && v in g.dirs && w in Kids(g, v) && Dirty(s, w))
  }

  ghost predicate Blocked(g: Graph, s: State, v: nat)
  {
    exists w :: Waits(g, s, v, w)
  }

  /** Everything dirty is on the list, once: afs_DisconAddDirty. */
  ghost predicate Listed(s: State)
  {
    Distinct(s.queue) && forall v :: v in s.queue <==> Dirty(s, v)
  }

  /** No lookup or call ends in EAGAIN by itself. */
  predicate NoAgain(c: Codes)
  {
    c.name != EAGAIN && c.create != EAGAIN && c.remove != EAGAIN && c.rename != EAGAIN && c.fetch != EAGAIN && c.store != EAGAIN
  }

  predicate Succeeds(c: Codes)
  {
    c.name == c.create == c.remove == c.rename == c.fetch == c.store == 0
  }

  /** What a turn comes to: a blocked entry is left as it is, and deferred unless a lookup fails;
      one that is not blocked is never deferred. */
  lemma TurnOutcome(g: Graph, s: State, v: nat, c: Codes)
    ensures Blocked(g, s, v) ==> (var t := Replay(g, s, v, c);
              t.code != 0 && t.flags == Flags(s, v) && t.log == [] && (c.name == 0 && v in g.parent ==> t.code == EAGAIN))
    ensures !Blocked(g, s, v) && NoAgain(c) ==> Replay(g, s, v, c).code != EAGAIN
    ensures !Blocked(g, s, v) && Succeeds(c) && (Create in Flags(s, v) || Remove in Flags(s, v) ==> v in g.parent) ==>
              Replay(g, s, v, c).code == 0
  {
    if Blocked(g, s, v) {
      var w :| Waits(g, s, v, w);
    } else {
      assert v in g.parent ==> !Waits(g, s, v, g.parent[v]);
      assert forall w :: w in Kids(g, v) ==> !Waits(g, s, v, w);
    }
  }

  // ---------------------------------------------------------------- what reaches the server

  ghost predicate NoBoth(s: State)
  {
    forall v :: !(Create in Flags(s, v) && Remove in Flags(s, v))
  }

  /** v was not made locally, or has been created on the server since. */
  predicate Exists(g: Graph, s0: State, log: seq<Event>, v: nat)
  {
    Create !in Flags(s0, v) || Made(g, log, v)
  }

  predicate Made(g: Graph, log: seq<Event>, v: nat)
  {
    v in g.parent && CreateRpc(v, g.parent[v], 0) in log
  }

  /** Event e may follow the log. */
  ghost predicate MayFollow(g: Graph, s0: State, log: seq<Event>, e: Event)
  {
    match e
    case CreateRpc(v, p, _) =>
      v in g.parent && p == g.parent[v] && Create in Flags(s0, v) && !Made(g, log, v) && Exists(g, s0, log, p)
    case RemoveRpc(v, _) =>
      && Create !in Flags(s0, v) && v in g.parent && Exists(g, s0, log, g.parent[v])
      && (v in g.dirs ==> forall w :: w in Kids(g, v) && Dirty(s0, w) ==> Done(w) in log)
    case RenameRpc(v, _) => Exists(g, s0, log, v)
    case StoreRpc(v, _) => Exists(g, s0, log, v)
    case Done(v) =>
      && Dirty(s0, v) && Done(v) !in log && Exists(g, s0, log, v)
      && (if Remove in Flags(s0, v) then RemoveRpc(v, 0) in log
          else (Rename in Flags(s0, v) ==> RenameRpc(v, 0) in log) && (Create in Flags(s0, v) ==> StoreRpc(v, 0) in log))
  }

  ghost predicate InOrder(g: Graph, s0: State, log: seq<Event>)
  {
    forall k :: 0 <= k < |log| ==> MayFollow(g, s0, log[..k], log[k])
  }

  lemma Extends(g: Graph, s0: State, log: seq<Event>, e: Event)
    requires InOrder(g, s0, log) && MayFollow(g, s0, log, e)
    ensures InOrder(g, s0, log + [e])
  {
    var l := log + [e];
    forall k | 0 <= k < |l| ensures MayFollow(g, s0, l[..k], l[k]) {
      assert l[..k] == log[..k];
    }
  }

  /** v's flags f agree with what the log says became of v. */
  predicate Tracked(g: Graph, s0: State, f: set<Flag>, log: seq<Event>, v: nat)
  {
    && (if Create in f then Create in Flags(s0, v) && !Made(g, log, v) else Exists(g, s0, log, v))
    && (Remove in f <==> Remove in Flags(s0, v) && Done(v) !in log)
    && (Rename in f <==> Rename in Flags(s0, v) && Done(v) !in log)
    && (Create in Flags(s0, v) && Create !in f && Done(v) !in log ==> Created in f)
    && (f != {} <==> Dirty(s0, v) && Done(v) !in log)
  }

  ghost predicate Inv(g: Graph, s0: State, y: Sys)
  {
    && Listed(y.s) && NoBoth(s0) && InOrder(g, s0, y.log)
    && forall v :: Tracked(g, s0, Flags(y.s, v), y.log, v)
  }

  lemma CreateInOrder(g: Graph, s0: State, y: Sys, v: nat, c: Codes)
    requires Inv(g, s0, y) && Create in Flags(y.s, v)
    ensures var t := CreateTurn(g, y.s, v, c);
            InOrder(g, s0, y.log + t.log) && (t.code == 0 ==> Made(g, y.log + t.log, v))
  {
    var t := CreateTurn(g, y.s, v, c);
    if t.log == [] {
      assert y.log + t.log == y.log;
    } else {
      assert Tracked(g, s0, Flags(y.s, v), y.log, v);
      assert Tracked(g, s0, Flags(y.s, g.parent[v]), y.log, g.parent[v]);
      Extends(g, s0, y.log, t.log[0]);
      assert t.log[0] in y.log + t.log;
    }
  }

  lemma RemoveInOrder(g: Graph, s0: State, y: Sys, v: nat, c: Codes)
    requires Inv(g, s0, y) && Remove in Flags(y.s, v)
    ensures var t := RemoveTurn(g, y.s, v, c);
            InOrder(g, s0, y.log + t.log) && (t.code == 0 ==> RemoveRpc(v, 0) in y.log + t.log)
  {
    var t := RemoveTurn(g, y.s, v, c);
    if t.log == [] {
      assert y.log + t.log == y.log;
    } else {
      assert Tracked(g, s0, Flags(y.s, v), y.log, v);
      assert Tracked(g, s0, Flags(y.s, g.parent[v]), y.log, g.parent[v]);
      assert forall w :: w in Kids(g, v) ==> Tracked(g, s0, Flags(y.s, w), y.log, w);
      Extends(g, s0, y.log, t.log[0]);
      assert t.log[0] in y.log + t.log;
    }
  }

  lemma ChangeInOrder(g: Graph, s0: State, log: seq<Event>, flags: set<Flag>, v: nat, c: Codes)
    requires InOrder(g, s0, log) && Exists(g, s0, log, v)
    ensures InOrder(g, s0, log + ChangeTurn(flags, v, c).log)
  {
    var l := ChangeTurn(flags, v, c).log;
    if l == [] {
      assert log + l == log;
    } else {
      Extends(g, s0, log, l[0]);
      if |l| == 2 {
        Extends(g, s0, log + [l[0]], l[1]);
        assert log + l == log + [l[0]] + [l[1]];
      } else {
        assert log + l == log + [l[0]];
      }
    }
  }

  /** Everything sent in a turn may be sent, given the state it is sent in. */
  lemma TurnInOrder(g: Graph, s0: State, y: Sys, c: Codes)
    requires Inv(g, s0, y) && y.s.queue != []
    ensures InOrder(g, s0, y.log + Replay(g, y.s, y.s.queue[0], c).log)
  {
    var v := y.s.queue[0];
    if Remove in Flags(y.s, v) {
      RemoveInOrder(g, s0, y, v, c);
    } else if Create in Flags(y.s, v) {
      CreateInOrder(g, s0, y, v, c);
      var made := CreateTurn(g, y.s, v, c);
      if made.code == 0 {
        var sent := ChangeTurn(made.flags, v, c);
        ChangeInOrder(g, s0, y.log + made.log, made.flags, v, c);
        assert y.log + (made.log + sent.log) == y.log + made.log + sent.log;
      }
    } else {
      assert Tracked(g, s0, Flags(y.s, v), y.log, v);
      ChangeInOrder(g, s0, y.log, Flags(y.s, v), v, c);
    }
  }

  /** The queue is kept up with the flags. */
  lemma AfterListed(s: State, t: Turn)
    requires Listed(s) && s.queue != [] && (t.code != 0 ==> t.flags != {})
    ensures Listed(After(s, t))
    ensures forall w :: w != s.queue[0] ==> Flags(After(s, t), w) == Flags(s, w)
    ensures Flags(After(s, t), s.queue[0]) == if t.code == 0 then {} else t.flags
  {
    var v, q := s.queue[0], After(s, t).queue;
    assert s.queue == [v] + s.queue[1..];
    if t.code == EAGAIN {
      DistinctConcat(s.queue[1..], [v]);
    }
    forall w ensures w in q <==> w in s.queue && (t.code == 0 ==> w != v) {
    }
  }

  /** A turn's events are v's own, and its flags follow them. */
  lemma TurnTracked(g: Graph, s0: State, y: Sys, c: Codes)
    requires Inv(g, s0, y) && y.s.queue != []
    ensures var v := y.s.queue[0]; var t := Replay(g, y.s, v, c);
            && (forall e :: e in t.log ==> e.v == v && e != Done(v))
            && (t.code != 0 ==> t.flags != {} && Tracked(g, s0, t.flags, y.log + t.log, v))
            && (t.code == 0 ==> MayFollow(g, s0, y.log + t.log, Done(v)))
  {
    var v := y.s.queue[0];
    assert Dirty(y.s, v) && Tracked(g, s0, Flags(y.s, v), y.log, v);
  }

  lemma Absorb(g: Graph, s0: State, y: Sys, t: Turn)
    requires Inv(g, s0, y) && y.s.queue != [] && InOrder(g, s0, y.log + t.log)
    requires var v := y.s.queue[0];
             && (forall e :: e in t.log ==> e.v == v && e != Done(v))
             && (t.code != 0 ==> t.flags != {} && Tracked(g, s0, t.flags, y.log + t.log, v))
             && (t.code == 0 ==> MayFollow(g, s0, y.log + t.log, Done(v)))
    ensures Inv(g, s0, Sys(After(y.s, t), y.log + t.log + (if t.code == 0 then [Done(y.s.queue[0])] else []), t.code))
  {
    var v := y.s.queue[0];
    var more := t.log + if t.code == 0 then [Done(v)] else [];
    var z := Sys(After(y.s, t), y.log + more, t.code);
    assert y.log + t.log + (if t.code == 0 then [Done(v)] else []) == z.log;
    AfterListed(y.s, t);
    if t.code == 0 {
      Extends(g, s0, y.log + t.log, Done(v));
      assert z.log == y.log + t.log + [Done(v)];
    } else {
      assert z.log == y.log + t.log;
    }
    forall w ensures Tracked(g, s0, Flags(z.s, w), z.log, w) {
      assert Tracked(g, s0, Flags(y.s, w), y.log, w);
      assert w != v ==> forall e :: e in more ==> e.v != w;
    }
  }

  lemma StepKeeps(g: Graph, s0: State, y: Sys, c: Codes)
    requires Inv(g, s0, y)
    ensures Inv(g, s0, Step(g, y, c))
  {
    if Running(y) {
      TurnInOrder(g, s0, y, c);
      TurnTracked(g, s0, y, c);
      Absorb(g, s0, y, Replay(g, y.s, y.s.queue[0], c));
    }
  }

  /** Whatever the calls return: a creation is sent once, and only below a parent that is on the
      server; a directory is removed only after everything dirty that was in it is finished;
      nothing finishes twice, or without its removal or else its creation, renaming and, if it is
      new, storing having been done. */
  lemma {:induction false} RunInOrder(g: Graph, s: State, cs: seq<Codes>)
    requires Listed(s) && NoBoth(s)
    ensures Inv(g, s, Run(g, s, cs))
    decreases |cs|
  {
    if cs != [] {
      RunInOrder(g, s, cs[..|cs| - 1]);
      StepKeeps(g, s, Run(g, s, cs[..|cs| - 1]), cs[|cs| - 1]);
    }
  }
}
