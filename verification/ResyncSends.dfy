/** What the replay sends for each entry: exactly when a turn creates, removes, renames or stores,
    and that over a whole run no change is dropped that should have been sent. */
module ResyncSends {
  import opened Resync

  /** afs_GetParentVCache finds the parent, on the server. */
  predicate HasParent(g: Graph, s: State, v: nat, c: Codes)
  {
    c.name == 0 && v in g.parent && Create !in Flags(s, g.parent[v])
  }

  /** Nothing that was in directory v has changes of its own. */
  ghost predicate Emptied(g: Graph, s: State, v: nat)
  {
    v in g.dirs ==> forall w :: w in Kids(g, v) ==> Flags(s, w) == {}
  }

  /** v has been made on the server, now or before. */
  predicate There(g: Graph, s: State, v: nat, c: Codes)
  {
    Create in Flags(s, v) ==> HasParent(g, s, v, c) && c.create == 0
  }

  /** Renamed, if that was to be done. */
  predicate Named(s: State, v: nat, c: Codes)
  {
    Rename in Flags(s, v) ==> c.rename == 0
  }

  /** The entry was made here, and perhaps on the server since. */
  predicate IsNew(f: set<Flag>)
  {
    Create in f || Created in f
  }

  /** The entry's changes go to the server. */
  predicate Stores(g: Graph, s: State, v: nat, c: Codes)
  {
    There(g, s, v, c) && Named(s, v, c) && c.fetch == 0 && (c.sends || IsNew(Flags(s, v)))
  }

  function If(b: bool, e: Event): (es: seq<Event>)
  {
    if b then [e] else []
  }

  /** What a turn sends, in this order, and when it finishes the entry. */
  lemma TurnSends(g: Graph, s: State, v: nat, c: Codes)
    ensures var t, f := Replay(g, s, v, c), Flags(s, v);
            if Remove in f then
              && t.log == If(HasParent(g, s, v, c) && Emptied(g, s, v), RemoveRpc(v, c.remove))
              && (t.code == 0 <==> HasParent(g, s, v, c) && Emptied(g, s, v) && c.remove == 0)
            else
              && t.log == (if Create in f && HasParent(g, s, v, c) then [CreateRpc(v, g.parent[v], c.create)] else [])
                          + If(Rename in f && There(g, s, v, c), RenameRpc(v, c.rename))
                          + If(Stores(g, s, v, c), StoreRpc(v, c.store))
              && (t.code == 0 <==> There(g, s, v, c) && Named(s, v, c) && c.fetch == 0 && (c.sends || IsNew(f) ==> c.store == 0))
  {
    if Remove in Flags(s, v) {
      assert DirtyKids(g, s, v) <==> !Emptied(g, s, v);
    }
  }

  // ---------------------------------------------------------------- over a run

  /** What an entry is stays what it was, as long as it is dirty. */
  predicate KeepsKind(f0: set<Flag>, f: set<Flag>)
  {
    f != {} ==> (Remove in f <==> Remove in f0) && (IsNew(f) <==> IsNew(f0))
  }

  lemma StepKind(g: Graph, y: Sys, c: Codes, v: nat)
    requires Listed(y.s)
    ensures Listed(Step(g, y, c).s) && KeepsKind(Flags(y.s, v), Flags(Step(g, y, c).s, v))
  {
    if Running(y) {
      var w := y.s.queue[0];
      assert Dirty(y.s, w);
      AfterListed(y.s, Replay(g, y.s, w, c));
    }
  }

  lemma {:induction false} RunKind(g: Graph, s: State, cs: seq<Codes>, v: nat)
    requires Listed(s)
    ensures Listed(Run(g, s, cs).s) && KeepsKind(Flags(s, v), Flags(Run(g, s, cs).s, v))
    ensures !Dirty(s, v) ==> !Dirty(Run(g, s, cs).s, v)
    decreases |cs|
  {
    if cs != [] {
      RunKind(g, s, cs[..|cs| - 1], v);
      StepKind(g, Run(g, s, cs[..|cs| - 1]), cs[|cs| - 1], v);
      if !Dirty(Run(g, s, cs[..|cs| - 1]).s, v) {
        StepClean(g, Run(g, s, cs[..|cs| - 1]), cs[|cs| - 1], v);
      }
    }
  }

  lemma StepClean(g: Graph, y: Sys, c: Codes, v: nat)
    requires Listed(y.s) && !Dirty(y.s, v)
    ensures !Dirty(Step(g, y, c).s, v)
  {
    if Running(y) {
      var w := y.s.queue[0];
      assert Dirty(y.s, w);
      AfterListed(y.s, Replay(g, y.s, w, c));
    }
  }

  /** A turn that finishes an entry which is not to be removed has stored it if it should. */
  lemma TurnStores(g: Graph, s: State, v: nat, c: Codes)
    requires Remove !in Flags(s, v)
    ensures var t, sends := Replay(g, s, v, c), c.sends || IsNew(Flags(s, v));
            && (t.code == 0 && sends ==> StoreRpc(v, 0) in t.log)
            && (!sends ==> forall e :: e in t.log ==> !e.StoreRpc?)
  {
    TurnSends(g, s, v, c);
    var t := Replay(g, s, v, c);
    if t.code == 0 && (c.sends || IsNew(Flags(s, v))) {
      assert t.log[|t.log| - 1] == StoreRpc(v, 0);
    }
  }

  lemma TurnUnfinished(g: Graph, s: State, v: nat, c: Codes)
    ensures forall e :: e in Replay(g, s, v, c).log ==> e.v == v && !e.Done?
  {
  }

  /** The entry whose turn it is, after a run: it is what it was at first. */
  lemma Current(g: Graph, s: State, cs: seq<Codes>)
    requires Listed(s) && Running(Run(g, s, cs))
    ensures var y := Run(g, s, cs); var v := y.s.queue[0];
            (Remove in Flags(y.s, v) <==> Remove in Flags(s, v)) && (IsNew(Flags(y.s, v)) <==> IsNew(Flags(s, v)))
  {
    var y := Run(g, s, cs);
    RunKind(g, s, cs, y.s.queue[0]);
    assert Dirty(y.s, y.s.queue[0]);
  }

  /** Whatever happened before, and whatever comes of the other entries: an entry that is not to be
      removed and finishes in a turn in which changes are to be sent, or that was made here, has
      been stored in it; otherwise nothing is stored in that turn. */
  lemma FinishStores(g: Graph, s: State, cs: seq<Codes>, c: Codes)
    requires Listed(s) && Running(Run(g, s, cs)) && Remove !in Flags(s, Run(g, s, cs).s.queue[0])
    ensures var y, z := Run(g, s, cs), Step(g, Run(g, s, cs), c); var v := y.s.queue[0];
            exists sent :: && z.log == y.log + sent + If(z.code == 0, Done(v))
                           && (z.code == 0 && (c.sends || IsNew(Flags(s, v))) ==> StoreRpc(v, 0) in sent)
                           && (!c.sends && !IsNew(Flags(s, v)) ==> forall e :: e in sent ==> !e.StoreRpc?)
  {
    var y := Run(g, s, cs);
    Current(g, s, cs);
    TurnStores(g, y.s, y.s.queue[0], c);
    assert Step(g, y, c).log == y.log + Replay(g, y.s, y.s.queue[0], c).log + If(Step(g, y, c).code == 0, Done(y.s.queue[0]));
  }

  /** Every entry that has finished and was not to be removed has been stored before. */
  ghost predicate StoredFirst(s: State, log: seq<Event>)
  {
    forall k :: 0 <= k < |log| && log[k].Done? && Remove !in Flags(s, log[k].v) ==> StoreRpc(log[k].v, 0) in log[..k]
  }

  lemma StoredThen(s: State, log: seq<Event>, sent: seq<Event>, v: nat, done: bool)
    requires StoredFirst(s, log) && (forall e :: e in sent ==> !e.Done?)
    requires done && Remove !in Flags(s, v) ==> StoreRpc(v, 0) in sent
    ensures StoredFirst(s, log + sent + If(done, Done(v)))
  {
    var l := log + sent + If(done, Done(v));
    forall k | 0 <= k < |l| && l[k].Done? && Remove !in Flags(s, l[k].v) ensures StoreRpc(l[k].v, 0) in l[..k] {
      if k < |log| {
        assert l[..k] == log[..k];
      } else {
        assert l[..k] == log + sent;
      }
    }
  }

  /** If changes are always to be sent, nothing finishes unsent. */
  lemma {:induction false} AllStored(g: Graph, s: State, cs: seq<Codes>)
    requires Listed(s) && forall i :: 0 <= i < |cs| ==> cs[i].sends
    ensures StoredFirst(s, Run(g, s, cs).log)
    decreases |cs|
  {
    if cs != [] {
      var most, c := cs[..|cs| - 1], cs[|cs| - 1];
      AllStored(g, s, most);
      var y := Run(g, s, most);
      if Running(y) {
        var v := y.s.queue[0];
        var t := Replay(g, y.s, v, c);
        Current(g, s, most);
        if Remove !in Flags(s, v) {
          TurnStores(g, y.s, v, c);
        }
        TurnUnfinished(g, y.s, v, c);
        StoredThen(s, y.log, t.log, v, t.code == 0);
      }
    }
  }

  /** If they never are, only what was made here is stored. */
  lemma {:induction false} NoneStored(g: Graph, s: State, cs: seq<Codes>)
    requires Listed(s) && forall i :: 0 <= i < |cs| ==> !cs[i].sends
    ensures forall e :: e in Run(g, s, cs).log && e.StoreRpc? ==> IsNew(Flags(s, e.v))
    decreases |cs|
  {
    if cs != [] {
      var most, c := cs[..|cs| - 1], cs[|cs| - 1];
      NoneStored(g, s, most);
      var y, z := Run(g, s, most), Run(g, s, cs);
      if Running(y) {
        var v := y.s.queue[0];
        Current(g, s, most);
        TurnUnfinished(g, y.s, v, c);
        if Remove !in Flags(s, v) {
          TurnStores(g, y.s, v, c);
        }
      }
    }
  }

  /** What is dirty at first and no longer listed has finished. */
  lemma {:induction false} GoneIsDone(g: Graph, s: State, cs: seq<Codes>, v: nat)
    requires Listed(s) && Dirty(s, v) && v !in Run(g, s, cs).s.queue
    ensures Done(v) in Run(g, s, cs).log
    decreases |cs|
  {
    if cs != [] {
      var most := cs[..|cs| - 1];
      var y := Run(g, s, most);
      RunKind(g, s, most, v);
      if v !in y.s.queue {
        GoneIsDone(g, s, most, v);
      }
    }
  }
}
