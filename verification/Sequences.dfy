/** The honesty of `changed`, check mode, and runs one after the other. */
module Sequences {
  import opened Strings
  import opened IpaModel
  import opened Changes
  import opened IpaServer
  import opened Requests
  import opened QueueEffect
  import opened Convergence
  import opened Runs
  import opened Theorems
  import opened Absence

  // ---------- changed ----------

  lemma ChangedIsQueued(c: Client, st: State, want: Slice, o: Option<Obj>)
    requires Run(c, st, false, want, o).Done?
    ensures Run(c, st, false, want, o).changed <==> Queue(c, st, false, want, o) != []
  {
    var d := DeltaOf(c, st, want, o);
    RouteQueueEmpty(c.routes, d);
  }

  /** `changed` is honest: a run reports a change exactly when the object afterwards differs
      from the object before; the one exception is `absent` naming a scalar with its own
      default as value, which is written over itself and reported. */
  lemma ChangedIsHonest(c: Client, st: State, want: Slice, o: Option<Obj>)
    requires Setting(c, st, want, o) && Run(c, st, false, want, o).Done?
    ensures Run(c, st, false, want, o).changed <==>
      || Run(c, st, false, want, o).obj != o
      || (st == Absent && o.Some? && ResetsToItself(c, want.scalars, o.value.scalars))
  {
    ChangedIsQueued(c, st, want, o);
    if RemovesObject(st, want) {
      AbsentRemoves(c, o);
    } else if o.None? {
      MissingIsChanged(c, st, want);
    } else if st == Absent {
      AbsentIsHonest(c, want, o.value);
    } else {
      RefusedIff(c, st, want, o);
      PresentIsHonest(c, st, want, o.value);
    }
  }

  lemma MissingIsChanged(c: Client, st: State, want: Slice)
    requires Setting(c, st, want, None) && !RemovesObject(st, want) && Run(c, st, false, want, None).Done?
    ensures Queue(c, st, false, want, None) != [] && Run(c, st, false, want, None).obj.Some?
  {
    RunEffect(c, st, want, None);
  }

  lemma PresentIsHonest(c: Client, st: State, want: Slice, o: Obj)
    requires Runnable(c, st, want, Some(o))
    ensures Queue(c, st, false, want, Some(o)) == [] <==> After(c, st, want, Some(o)) == o
  {
    QueueEmptyIff(c, st, want, o);
    GoalReached(c, st, want, Some(o));
    if Queue(c, st, false, want, Some(o)) == [] {
      EmptyQueueIsSilent(c, st, want, o);
    }
  }

  lemma AbsentIsHonest(c: Client, want: Slice, o: Obj)
    requires Setting(c, Absent, want, Some(o)) && want != NOTHING
    ensures Run(c, Absent, false, want, Some(o)).Done?
    ensures Queue(c, Absent, false, want, Some(o)) == [] <==>
      Run(c, Absent, false, want, Some(o)).obj == Some(o) && !ResetsToItself(c, want.scalars, o.scalars)
  {
    AbsentQueueEmptyIff(c, want, o);
    AbsentAttributes(c, want, Some(o));
    var now := Run(c, Absent, false, want, Some(o)).obj.value;
    if now == o {
      assert o.pairs - Pairs(want.lists) == o.pairs;
      forall k | k in want.scalars && Matches(c, want.scalars, o.scalars, k) ensures Default(c, k) == want.scalars[k] {
        assert k in o.scalars && k in now.scalars;
      }
    }
    if Queue(c, Absent, false, want, Some(o)) == [] {
      EmptyQueueIsSilent(c, Absent, want, o);
    }
  }

  // ---------- check mode ----------

  /** Check mode never reports a change that a real run would not make, and it stays silent
      about one exactly when it is a removal, a switch of the enable key, or member requests
      of rows that do not mark the change themselves, and nothing else. */
  lemma CheckModePrediction(c: Client, st: State, want: Slice, o: Option<Obj>)
    requires Run(c, st, false, want, o).Done?
    ensures var live, dry := Run(c, st, false, want, o), Run(c, st, true, want, o);
      var d := DeltaOf(c, st, want, o);
      && dry.obj == o
      && (dry.changed ==> live.changed)
      && (live.changed && !dry.changed <==>
            if RemovesObject(st, want) then ViewOf(c, o) != NOTHING
            else
              && BaseQueue(c, d, ViewOf(c, o) == NOTHING, o.Some?) == [] && !Marked(c.routes, d)
              && (EnableActive(c, st, false, d, ViewOf(c, o) == NOTHING)
                  || exists i | 0 <= i < |c.routes| :: RouteActive(c.routes[i], d)))
  {
    var d := DeltaOf(c, st, want, o);
    ChangedIsQueued(c, st, want, o);
    RouteQueueEmpty(c.routes, d);
    CheckedRoutes(c.routes, d);
  }

  lemma {:induction false} CheckedRoutes(routes: seq<Route>, d: Delta)
    ensures RouteQueue(routes, true, d) == []
  {
    if routes != [] { CheckedRoutes(routes[..|routes| - 1], d); }
  }

  // ---------- several present runs ----------

  /** `present` runs with these parameters, one after the other. */
  ghost function RunAll(c: Client, wants: seq<Slice>, o: Option<Obj>): Reply {
    if wants == [] then Accepted(o)
    else
      match RunAll(c, wants[..|wants| - 1], o)
      case Refused => Refused
      case Accepted(o1) =>
        match Run(c, Present, false, wants[|wants| - 1], o1)
        case Failed => Refused
        case Done(o2, _, _) => Accepted(o2)
  }

  ghost function AllWanted(wants: seq<Slice>): set<Pair> {
    set i, p | 0 <= i < |wants| && p in Pairs(wants[i].lists) :: p
  }

  /** For each base scalar the value of the last run that gives one. */
  ghost predicate LastWriters(c: Client, wants: seq<Slice>, start: Scalars, now: Scalars) {
    && (forall i, k | 0 <= i < |wants| && k in wants[i].scalars && k in c.baseKeys
          && (forall j | i < j < |wants| :: k !in wants[j].scalars) ::
          k in now && now[k] == wants[i].scalars[k])
    && (forall k | k !in c.baseKeys || forall i | 0 <= i < |wants| :: k !in wants[i].scalars ::
          (k in now <==> k in start) && (k in start ==> now[k] == start[k]))
  }

  function PresentObj(c: Client, want: Slice, o: Obj, ps: set<Pair>): Obj {
    Obj(o.scalars + RestrictScalars(want.scalars, c.baseKeys), o.pairs + ps)
  }

  /** The object a run finds, or is about to create, shows the client nothing. */
  predicate Bare(c: Client, o: Option<Obj>) { View(c, Start(c, o)) == NOTHING }

  /** A run with these parameters leaves something to be seen. */
  predicate Shows(c: Client, want: Slice) {
    want.lists != map[] || RestrictScalars(want.scalars, c.baseKeys) != map[]
  }

  lemma ShowsAfter(c: Client, want: Slice, o: Obj)
    requires Wanted(c, Present, want)
    ensures View(c, PresentObj(c, want, o, Pairs(want.lists))) == NOTHING <==> View(c, o) == NOTHING && !Shows(c, want)
  {
    var now := PresentObj(c, want, o, Pairs(want.lists));
    var base := RestrictScalars(want.scalars, c.baseKeys);
    ScalarsShown(c, o.scalars, base, o, now);
    PairsShown(c, want, o, now);
    assert View(c, o).scalars == map[] && base == map[] ==> View(c, now).scalars == map[];
  }

  lemma ScalarsShown(c: Client, start: Scalars, base: Scalars, o: Obj, now: Obj)
    requires o.scalars == start && now.scalars == start + base && forall k | k in base :: KnownScalar(c, k)
    ensures View(c, now).scalars == map[] <==> View(c, o).scalars == map[] && base == map[]
  {
    if k :| k in base { assert k in View(c, now).scalars; }
    if k :| k in View(c, o).scalars { assert k in View(c, now).scalars; }
  }

  lemma PairsShown(c: Client, want: Slice, o: Obj, now: Obj)
    requires now.pairs == o.pairs + Pairs(want.lists)
    requires forall k | k in want.lists :: KnownList(c, k) && want.lists[k] != {}
    ensures View(c, now).lists == map[] <==> View(c, o).lists == map[] && want.lists == map[]
  {
    hide View;
    ListsShown(c, o);
    ListsShown(c, now);
    if k :| k in want.lists {
      var v :| v in want.lists[k];
      assert (k, v) in now.pairs;
    }
  }

  /** A view has lists exactly if the object has a pair the client knows. */
  lemma ListsShown(c: Client, o: Obj)
    ensures View(c, o).lists == map[] <==> forall p | p in o.pairs :: !KnownList(c, p.0)
  {
    if p :| p in o.pairs && KnownList(c, p.0) {
      assert p == (p.0, p.1);
      ValuesOf(o.pairs, p.0, p.1);
      assert p.0 in View(c, o).lists;
    }
    if k :| k in View(c, o).lists {
      var v :| v in Values(o.pairs, k);
      ValuesOf(o.pairs, k, v);
      assert (k, v).0 == k;
    }
  }

  /** One `present` run from any start. */
  lemma PresentStep(c: Client, want: Slice, o: Option<Obj>)
    requires Setting(c, Present, want, o)
    ensures Run(c, Present, false, want, o) == Failed <==> LooksAbsent(c, o) && WantsBase(c, want)
    ensures Run(c, Present, false, want, o) != Failed ==>
      var now := PresentObj(c, want, Start(c, o), Pairs(want.lists));
      && WellTyped(c, now) && (Bare(c, Some(now)) <==> Bare(c, o) && !Shows(c, want))
      && Run(c, Present, false, want, o).obj == Some(now)
  {
    RefusedIff(c, Present, want, o);
    if Run(c, Present, false, want, o) != Failed {
      PresentConverges(c, want, o);
      StaysTyped(c, Present, want, o);
      ShowsAfter(c, want, Start(c, o));
      hide Setting, Run, View, Shows, WantsBase, RestrictScalars, Pairs, WellTyped;
    }
  }

  /** The runs before `n` leave a bare object bare, and run `n` finds it there and wants an
      attribute of the base request. */
  ghost predicate RefusedAt(c: Client, wants: seq<Slice>, o: Option<Obj>, n: nat)
    requires n < |wants|
  {
    && Bare(c, o) && (o.Some? || n > 0) && WantsBase(c, wants[n])
    && forall i | 0 <= i < n :: !Shows(c, wants[i])
  }

  ghost predicate NoneShows(c: Client, wants: seq<Slice>) { forall i | 0 <= i < |wants| :: !Shows(c, wants[i]) }

  /** What runs that went through have made of the object. */
  ghost predicate Composed(c: Client, wants: seq<Slice>, o: Option<Obj>, now: Option<Obj>) {
    && (wants == [] ==> now == o)
    && (wants != [] ==>
          && now.Some? && now.value.pairs == Start(c, o).pairs + AllWanted(wants)
          && LastWriters(c, wants, Start(c, o).scalars, now.value.scalars))
    && (now.Some? ==> WellTyped(c, now.value))
    && (Bare(c, now) <==> Bare(c, o) && NoneShows(c, wants))
  }

  /** Any sequence of `present` runs, from any start, only grows the lists, ends with the union
      of them all, and leaves each scalar with its last writer: on the object that was there or
      on a new one. The sequence is refused exactly if one of the runs wants an attribute of
      the base request while the object exists but none before it has given it anything to
      show. */
  lemma {:induction false} PresentRunsCompose(c: Client, wants: seq<Slice>, o: Option<Obj>)
    requires ValidClient(c) && (o.Some? ==> WellTyped(c, o.value))
    requires forall i | 0 <= i < |wants| :: Wanted(c, Present, wants[i])
    ensures RunAll(c, wants, o) == Refused <==> exists n | 0 <= n < |wants| :: RefusedAt(c, wants, o, n)
    ensures RunAll(c, wants, o).Accepted? ==> Composed(c, wants, o, RunAll(c, wants, o).obj)
  {
    hide ValidClient, Wanted, WellTyped, LastWriters, AllWanted, Run, Bare, Shows, WantsBase, RestrictScalars, Composed;
    if wants == [] {
      NoRunsCompose(c, o);
    } else {
      var n := |wants| - 1;
      var init, last := wants[..n], wants[n];
      PresentRunsCompose(c, init, o);
      RefusedSooner(c, wants, o);
      if RunAll(c, init, o).Accepted? {
        ComposeOne(c, wants, o, RunAll(c, init, o).obj);
      }
    }
  }

  lemma NoRunsCompose(c: Client, o: Option<Obj>)
    requires o.Some? ==> WellTyped(c, o.value)
    ensures Composed(c, [], o, o)
  {
  }

  lemma RefusedSooner(c: Client, wants: seq<Slice>, o: Option<Obj>)
    requires wants != []
    ensures var n := |wants| - 1;
      (exists i | 0 <= i < |wants| :: RefusedAt(c, wants, o, i)) <==>
      (exists i | 0 <= i < n :: RefusedAt(c, wants[..n], o, i)) || RefusedAt(c, wants, o, n)
  {
    var n := |wants| - 1;
    var init := wants[..n];
    hide Bare, Shows, WantsBase;
    assert forall i | 0 <= i < n :: init[i] == wants[i];
    forall i | 0 <= i < n ensures RefusedAt(c, wants, o, i) <==> RefusedAt(c, init, o, i) { }
  }

  lemma ComposeOne(c: Client, wants: seq<Slice>, o: Option<Obj>, mid: Option<Obj>)
    requires wants != [] && Composed(c, wants[..|wants| - 1], o, mid)
    requires ValidClient(c) && Wanted(c, Present, wants[|wants| - 1])
    ensures var last := wants[|wants| - 1];
      && (Run(c, Present, false, last, mid) == Failed <==> RefusedAt(c, wants, o, |wants| - 1))
      && (Run(c, Present, false, last, mid).Done? ==> Composed(c, wants, o, Run(c, Present, false, last, mid).obj))
  {
    var n := |wants| - 1;
    var init, last := wants[..n], wants[n];
    hide ValidClient, Wanted, WellTyped, Run, Shows, WantsBase, RestrictScalars, LastWriters, AllWanted, Pairs, View, Start;
    PresentStep(c, last, mid);
    BareWhenNoneShows(c, wants, o, mid);
    if Run(c, Present, false, last, mid).Done? {
      ComposedNow(c, wants, o, mid, PresentObj(c, last, Start(c, mid), Pairs(last.lists)));
    }
  }

  lemma BareWhenNoneShows(c: Client, wants: seq<Slice>, o: Option<Obj>, mid: Option<Obj>)
    requires wants != [] && Composed(c, wants[..|wants| - 1], o, mid)
    ensures var n := |wants| - 1;
      && (LooksAbsent(c, mid) <==> Bare(c, o) && (o.Some? || n > 0) && forall i | 0 <= i < n :: !Shows(c, wants[i]))
      && (NoneShows(c, wants) <==> NoneShows(c, wants[..n]) && !Shows(c, wants[n]))
  {
    hide Shows, View, LastWriters, AllWanted, WellTyped, Pairs;
    var n := |wants| - 1;
    var init := wants[..n];
    assert forall i | 0 <= i < n :: init[i] == wants[i];
    assert LooksAbsent(c, mid) <==> mid.Some? && Bare(c, mid);
  }

  lemma ComposedNow(c: Client, wants: seq<Slice>, o: Option<Obj>, mid: Option<Obj>, now: Obj)
    requires wants != [] && Composed(c, wants[..|wants| - 1], o, mid)
    requires now == PresentObj(c, wants[|wants| - 1], Start(c, mid), Pairs(wants[|wants| - 1].lists))
    requires WellTyped(c, now)
    requires Bare(c, Some(now)) <==> Bare(c, o) && NoneShows(c, wants)
    ensures Composed(c, wants, o, Some(now))
  {
    hide WellTyped, Bare, NoneShows, RestrictScalars, LastWriters, AllWanted, Pairs;
    var n := |wants| - 1;
    NoRuns(c, o);
    WantedSnoc(wants);
    assert now.pairs == Start(c, o).pairs + AllWanted(wants) by {
      if n == 0 { assert wants[..n] == []; }
    }
    assert LastWriters(c, wants[..n], Start(c, o).scalars, Start(c, mid).scalars) by {
      if n == 0 { assert wants[..n] == []; }
    }
    WritersSnoc(c, wants, Start(c, o).scalars, Start(c, mid).scalars, now.scalars);
  }

  lemma NoRuns(c: Client, o: Option<Obj>)
    ensures AllWanted([]) == {} && LastWriters(c, [], Start(c, o).scalars, Start(c, o).scalars)
  {
  }

  lemma WantedSnoc(wants: seq<Slice>)
    requires wants != []
    ensures AllWanted(wants) == AllWanted(wants[..|wants| - 1]) + Pairs(wants[|wants| - 1].lists)
  {
    var n := |wants| - 1;
    forall i | 0 <= i < n ensures wants[..n][i] == wants[i] { }
    forall p | p in AllWanted(wants) ensures p in AllWanted(wants[..n]) + Pairs(wants[n].lists) {
      var i :| 0 <= i < |wants| && p in Pairs(wants[i].lists);
      if i < n { assert p in Pairs(wants[..n][i].lists); }
    }
    forall p | p in AllWanted(wants[..n]) ensures p in AllWanted(wants) {
      var i :| 0 <= i < n && p in Pairs(wants[..n][i].lists);
      assert p in Pairs(wants[i].lists);
    }
  }

  lemma WritersSnoc(c: Client, wants: seq<Slice>, start: Scalars, mid: Scalars, now: Scalars)
    requires wants != [] && LastWriters(c, wants[..|wants| - 1], start, mid)
    requires now == mid + RestrictScalars(wants[|wants| - 1].scalars, c.baseKeys)
    ensures LastWriters(c, wants, start, now)
  {
    var n := |wants| - 1;
    var init := wants[..n];
    forall i | 0 <= i < n ensures init[i] == wants[i] { }
    forall i, k | 0 <= i < |wants| && k in wants[i].scalars && k in c.baseKeys
        && (forall j | i < j < |wants| :: k !in wants[j].scalars)
      ensures k in now && now[k] == wants[i].scalars[k]
    {
      if i < n {
        assert k in init[i].scalars && k !in wants[n].scalars;
        assert forall j | i < j < n :: k !in init[j].scalars;
      }
    }
    forall k | k !in c.baseKeys || forall i | 0 <= i < |wants| :: k !in wants[i].scalars
      ensures (k in now <==> k in start) && (k in start ==> now[k] == start[k])
    {
      if k in c.baseKeys {
        assert k !in wants[n].scalars;
        assert forall i | 0 <= i < n :: k !in init[i].scalars;
      }
    }
  }

  /** `absent` after `present` with the same parameters, from any start the first run goes
      through on: of the lists the original values minus the named ones are left, and the scalars
      that were set, or matched already, are at their defaults or gone. */
  lemma AbsentAfterPresent(c: Client, want: Slice, o: Option<Obj>)
    requires Setting(c, Present, want, o) && want != NOTHING && !(LooksAbsent(c, o) && WantsBase(c, want))
    ensures var mid := Run(c, Present, false, want, o);
      && mid.Done? && mid.obj.Some?
      && var end := Run(c, Absent, false, want, mid.obj);
      && end.Done? && end.obj == Some(Obj(
           ScalarsWithout(c, want.scalars, Start(c, o).scalars + RestrictScalars(want.scalars, c.baseKeys)),
           Start(c, o).pairs - Pairs(want.lists)))
  {
    hide Run, RestrictScalars, Pairs, WellTyped, LooksAbsent, WantsBase, Bare, Shows, ScalarsWithout;
    PresentStep(c, want, o);
    var mid := PresentObj(c, want, Start(c, o), Pairs(want.lists));
    WantedAbsent(c, want);
    AbsentAttributes(c, want, Some(mid));
    assert mid.pairs - Pairs(want.lists) == Start(c, o).pairs - Pairs(want.lists);
  }

  lemma WantedAbsent(c: Client, want: Slice)
    requires Wanted(c, Present, want)
    ensures Wanted(c, Absent, want)
  {
  }
}
