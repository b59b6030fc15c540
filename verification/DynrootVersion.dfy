/** The version tag of the made-up /afs directory, under any interleaving of changes to the
    three lists it is made from, invalidations, and rebuilds by several threads. */
module DynrootVersion {

  datatype Which = Cells | Aliases | Links

  /** The lists, as the number of changes each has seen. */
  datatype Lists = Lists(cells: nat, aliases: nat, links: nat)

  function Seen(l: Lists, w: Which): nat
  {
    match w
    case Cells => l.cells
    case Aliases => l.aliases
    case Links => l.links
  }

  function Changed(l: Lists, w: Which): Lists
  {
    match w
    case Cells => l.(cells := l.cells + 1)
    case Aliases => l.(aliases := l.aliases + 1)
    case Links => l.(links := l.links + 1)
  }

  /** Every change counted in a is counted in b. */
  predicate Within(a: Lists, b: Lists)
  {
    a.cells <= b.cells && a.aliases <= b.aliases && a.links <= b.links
  }

  datatype Dir = None | Dir(tag: nat, made: Lists)

  /** A thread in afs_GetDynroot: it has found the directory out of date, is rebuilding it (from
      which version, and what it has read so far), or has installed what it built. */
  datatype Phase = Stale | Building(tag: nat, read: map<Which, nat>) | Built

  /** What afs_GetDynroot hands out: the version in the status, and the directory. */
  datatype Answer = Answer(version: nat, dir: Dir)

  /** afs_dynrootVersion, the lists, the threads in afs_GetDynroot, the installed directory and
      the answers given; `at` remembers what the lists were when each version was reached. */
  datatype State = State(version: nat, lists: Lists, at: seq<Lists>, threads: map<nat, Phase>, dir: Dir, answers: seq<Answer>)

  /** Get looks at the tag, and answers if it is current; otherwise the thread goes through
      Begin, Read of each list, Install and Report, which answers. */
  datatype Event = Change(w: Which) | Invalidate | Get(g: nat) | Begin(g: nat) | Read(g: nat, w: Which) | Install(g: nat) | Report(g: nat)

  predicate Legal(s: State, e: Event)
  {
    match e
    case Change(_) => true
    case Invalidate => true
    case Get(g) => g !in s.threads
    case Begin(g) => g in s.threads && s.threads[g].Stale?
    case Read(g, _) => g in s.threads && s.threads[g].Building?
    case Install(g) => g in s.threads && s.threads[g].Building?
                       && Cells in s.threads[g].read && Aliases in s.threads[g].read && Links in s.threads[g].read
    case Report(g) => g in s.threads && s.threads[g].Built?
  }

  /** Whether the event gives an answer. */
  predicate Answers(s: State, e: Event)
  {
    e.Report? || (e.Get? && s.dir.Dir? && s.dir.tag == s.version)
  }

  function Answered(s: State): State
  {
    s.(answers := s.answers + [Answer(s.version, s.dir)])
  }

  function Step(s: State, e: Event): State
    requires Legal(s, e)
  {
    match e
    case Change(w) => s.(lists := Changed(s.lists, w))
    case Invalidate => s.(version := s.version + 1, at := s.at + [s.lists])
    case Get(g) => if Answers(s, e) then Answered(s) else s.(threads := s.threads[g := Stale])
    case Begin(g) => s.(threads := s.threads[g := Building(s.version, map[])])
    case Read(g, w) =>
      var b := s.threads[g];
      s.(threads := s.threads[g := b.(read := b.read[w := Seen(s.lists, w)])])
    case Install(g) =>
      var b := s.threads[g];
      s.(threads := s.threads[g := Built], dir := Dir(b.tag, Lists(b.read[Cells], b.read[Aliases], b.read[Links])))
    case Report(g) => Answered(s.(threads := s.threads - {g}))
  }

  ghost predicate LegalRun(s: State, es: seq<Event>)
    decreases |es|, 0
  {
    es == [] || (var n := |es| - 1; LegalRun(s, es[..n]) && Legal(Run(s, es[..n]), es[n]))
  }

  ghost function Run(s: State, es: seq<Event>): State
    requires LegalRun(s, es)
    decreases |es|, 1
  {
    if es == [] then s else var n := |es| - 1; Step(Run(s, es[..n]), es[n])
  }

  lemma RunThen(s: State, es: seq<Event>, e: Event)
    requires LegalRun(s, es) && Legal(Run(s, es), e)
    ensures LegalRun(s, es + [e]) && Run(s, es + [e]) == Step(Run(s, es), e)
  {
    assert (es + [e])[..|es|] == es;
  }

  /** Version 1, and no directory yet. */
  predicate Initial(s: State)
  {
    s.version == 1 && s.at == [s.lists, s.lists] && s.threads == map[] && s.dir == None && s.answers == []
  }

  // ---------------------------------------------------------------- what an answer shows

  /** What was read is at least as new as version `tag`, and no newer than the lists. */
  ghost predicate Recent(s: State, tag: nat, read: map<Which, nat>)
  {
    tag < |s.at| && forall w :: w in read ==> Seen(s.at[tag], w) <= read[w] <= Seen(s.lists, w)
  }

  /** The directory shows all that its tag promises, and nothing that is not there. */
  ghost predicate Shows(s: State, d: Dir)
  {
    d.Dir? && d.tag < |s.at| && Within(s.at[d.tag], d.made) && Within(d.made, s.lists)
  }

  ghost predicate Inv(s: State)
  {
    && |s.at| == s.version + 1
    && (forall v :: 0 <= v < |s.at| ==> Within(s.at[v], s.lists))
    && (forall g :: g in s.threads && s.threads[g].Building? ==> Recent(s, s.threads[g].tag, s.threads[g].read))
    && (forall g :: g in s.threads && s.threads[g].Built? ==> s.dir.Dir?)
    && (s.dir.Dir? ==> Shows(s, s.dir))
    && (forall i :: 0 <= i < |s.answers| ==> s.answers[i].version <= s.version && Shows(s, s.answers[i].dir))
  }

  lemma StepKeeps(s: State, e: Event)
    requires Inv(s) && Legal(s, e)
    ensures Inv(Step(s, e))
  {
  }

  lemma {:induction false} RunKeeps(s: State, es: seq<Event>)
    requires Inv(s) && LegalRun(s, es)
    ensures Inv(Run(s, es))
    decreases |es|
  {
    if es != [] {
      var n := |es| - 1;
      RunKeeps(s, es[..n]);
      StepKeeps(Run(s, es[..n]), es[n]);
    }
  }

  /** Every answer's directory shows every change whose invalidation had happened by its tag;
      with the tag of the reported version, that is every change the version promises. */
  lemma AnswersShow(s: State, es: seq<Event>, i: nat)
    requires Initial(s) && LegalRun(s, es) && i < |Run(s, es).answers|
    ensures var z := Run(s, es); var a := z.answers[i];
            && a.dir.Dir? && a.dir.tag < |z.at| && a.version < |z.at|
            && Within(z.at[a.dir.tag], a.dir.made) && Within(a.dir.made, z.lists)
            && (a.version == a.dir.tag ==> Within(z.at[a.version], a.dir.made))
  {
    RunKeeps(s, es);
  }

  // ---------------------------------------------------------------- when version and tag agree

  /** The invalidations in a run. */
  function Count(es: seq<Event>): nat
  {
    if es == [] then 0 else var n := |es| - 1; Count(es[..n]) + if es[n].Invalidate? then 1 else 0
  }

  lemma {:induction false} CountSame(es: seq<Event>, i: nat)
    requires i <= |es|
    ensures Count(es[..i]) <= Count(es)
    ensures Count(es[..i]) == Count(es) <==> forall m :: i <= m < |es| ==> !es[m].Invalidate?
    decreases |es|
  {
    if i == |es| {
      assert es[..i] == es;
    } else {
      var n := |es| - 1;
      CountSame(es[..n], i);
      assert es[..n][..i] == es[..i];
    }
  }

  /** Where thread g last began a rebuild, or where the run ends if it never did. */
  function BeganAt(es: seq<Event>, g: nat): (i: nat)
    ensures i <= |es| && (i < |es| ==> es[i] == Begin(g))
    ensures forall m :: i < m < |es| ==> es[m] != Begin(g)
  {
    if es == [] then 0
    else
      var n := |es| - 1;
      if es[n] == Begin(g) then n else
        var i := BeganAt(es[..n], g);
        if i == n then n + 1 else i
  }

  /** Where the last install is, or where the run ends if there is none. */
  function InstalledAt(es: seq<Event>): (j: nat)
    ensures j <= |es| && (j < |es| ==> es[j].Install?)
    ensures forall m :: j < m < |es| ==> !es[m].Install?
  {
    if es == [] then 0
    else
      var n := |es| - 1;
      if es[n].Install? then n else
        var j := InstalledAt(es[..n]);
        if j == n then n + 1 else j
  }

  /** Where the rebuild began that was installed last. */
  function BuiltFrom(es: seq<Event>): nat
    requires InstalledAt(es) < |es|
  {
    BeganAt(es[..InstalledAt(es)], es[InstalledAt(es)].g)
  }

  /** Tags are versions counted at the beginning of the rebuild. */
  ghost predicate Traced(s: State, es: seq<Event>)
  {
    && s.version == 1 + Count(es)
    && (forall g :: g in s.threads && s.threads[g].Building? ==>
          BeganAt(es, g) < |es| && s.threads[g].tag == 1 + Count(es[..BeganAt(es, g)]))
    && (s.dir.Dir? <==> InstalledAt(es) < |es|)
    && (s.dir.Dir? ==> BuiltFrom(es) < InstalledAt(es) && s.dir.tag == 1 + Count(es[..BuiltFrom(es)]))
  }

  lemma StepTraced(s: State, es: seq<Event>, e: Event)
    requires Traced(s, es) && Legal(s, e)
    ensures Traced(Step(s, e), es + [e])
  {
    var fs, z := es + [e], Step(s, e);
    assert fs[..|es|] == es;
    forall g | g in z.threads && z.threads[g].Building?
      ensures BeganAt(fs, g) < |fs| && z.threads[g].tag == 1 + Count(fs[..BeganAt(fs, g)])
    {
      if e != Begin(g) {
        assert fs[..BeganAt(es, g)] == es[..BeganAt(es, g)];
      }
    }
    if z.dir.Dir? {
      if e.Install? {
        assert fs[..InstalledAt(fs)] == es;
        assert fs[..BuiltFrom(fs)] == es[..BuiltFrom(fs)];
      } else {
        assert fs[..InstalledAt(es)] == es[..InstalledAt(es)];
        assert fs[..BuiltFrom(es)] == es[..BuiltFrom(es)];
      }
    }
  }

  lemma {:induction false} RunTraced(s: State, es: seq<Event>)
    requires Initial(s) && LegalRun(s, es)
    ensures Traced(Run(s, es), es)
    decreases |es|
  {
    if es != [] {
      var n := |es| - 1;
      RunTraced(s, es[..n]);
      StepTraced(Run(s, es[..n]), es[..n], es[n]);
      assert es[..n] + [es[n]] == es;
    }
  }

  /** The version that an answer reports is the tag of the directory it hands out if and only if
      nothing was invalidated since the rebuild began that was installed last. */
  lemma ReportedVersionExactly(s: State, es: seq<Event>, e: Event)
    requires Initial(s) && LegalRun(s, es) && Legal(Run(s, es), e) && Answers(Run(s, es), e)
    ensures LegalRun(s, es + [e]) && InstalledAt(es) < |es| && BuiltFrom(es) < InstalledAt(es)
    ensures var z := Run(s, es + [e]);
            && |z.answers| > 0
            && var a := z.answers[|z.answers| - 1];
            && a.dir.Dir? && a.dir.tag <= a.version
            && (a.dir.tag == a.version <==> forall m :: BuiltFrom(es) < m < |es| ==> !es[m].Invalidate?)
  {
    RunThen(s, es, e);
    RunTraced(s, es);
    assert Inv(s);
    RunKeeps(s, es);
    CountSame(es, BuiltFrom(es));
    assert es[BuiltFrom(es)].Begin?;
  }

  // ---------------------------------------------------------------- two runs

  /** A thread that finds the directory out of date and rebuilds it. */
  function Rebuild(g: nat): seq<Event>
  {
    [Get(g)] + [Begin(g)] + [Read(g, Cells)] + [Read(g, Aliases)] + [Read(g, Links)]
  }

  lemma Rebuilding(s: State, g: nat)
    requires g !in s.threads && !(s.dir.Dir? && s.dir.tag == s.version)
    ensures LegalRun(s, Rebuild(g))
    ensures var z := Run(s, Rebuild(g)); var l := s.lists;
            z == s.(threads := s.threads[g := Building(s.version, map[Cells := l.cells, Aliases := l.aliases, Links := l.links])])
  {
    var es := [Get(g)];
    RunThen(s, [], Get(g));
    assert [] + [Get(g)] == es;
    RunThen(s, es, Begin(g));
    es := es + [Begin(g)];
    RunThen(s, es, Read(g, Cells));
    es := es + [Read(g, Cells)];
    RunThen(s, es, Read(g, Aliases));
    es := es + [Read(g, Aliases)];
    RunThen(s, es, Read(g, Links));
  }

  /** Undisturbed, it answers with the current version and a directory that shows the lists as
      they are. */
  lemma UndisturbedAnswer(s: State, g: nat)
    requires g !in s.threads && !(s.dir.Dir? && s.dir.tag == s.version)
    ensures var es := Rebuild(g) + [Install(g)] + [Report(g)];
            && LegalRun(s, es)
            && (var z := Run(s, es); z.answers == s.answers + [Answer(s.version, Dir(s.version, s.lists))])
  {
    Rebuilding(s, g);
    RunThen(s, Rebuild(g), Install(g));
    RunThen(s, Rebuild(g) + [Install(g)], Report(g));
  }

  /** afs_GetDynroot does not look at the version again after rebuilding, yet reports the current
      one: the directory it hands out lacks a change that the version promises. */
  lemma ReportedVersionMayBeAhead(s: State)
    requires Initial(s)
    ensures var es := Rebuild(0) + [Change(Cells)] + [Invalidate] + [Install(0)] + [Report(0)];
            && LegalRun(s, es)
            && (var z := Run(s, es);
                && z.answers == [Answer(2, Dir(1, s.lists))]
                && 2 < |z.at| && !Within(z.at[2], s.lists))
  {
    Rebuilding(s, 0);
    RunThen(s, Rebuild(0), Change(Cells));
    RunThen(s, Rebuild(0) + [Change(Cells)], Invalidate);
    RunThen(s, Rebuild(0) + [Change(Cells)] + [Invalidate], Install(0));
    RunThen(s, Rebuild(0) + [Change(Cells)] + [Invalidate] + [Install(0)], Report(0));
  }
}
