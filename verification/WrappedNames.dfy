/** Runs on a user whose canonical name comes wrapped in a list, so that the client counts it
    among the aliases after every run. */
module WrappedNames {
  import opened Strings
  import opened IpaModel
  import opened Canonical
  import opened Changes
  import opened IpaServer
  import opened Requests
  import opened QueueEffect
  import opened Convergence
  import opened Runs
  import opened Theorems
  import opened Absence
  import opened Delivery
  import opened EveryRequest
  import opened Replies
  import opened Clients
  import opened IpaClient
  import opened EndToEnd

  /** What is left where that value was only seen. */
  function Unseen(full: Obj, o: Obj, p: Pair): Obj {
    Obj(full.scalars, if p in o.pairs then full.pairs else full.pairs - {p})
  }

  /** The run asks for the value to be removed. */
  ghost predicate Dropped(st: State, want: Slice, p: Pair) {
    (st == Exact && p !in Pairs(want.lists)) || (st == Absent && p in Pairs(want.lists))
  }

  /** A run on what is seen. */
  ghost predicate SeenSetting(c: Client, st: State, want: Slice, o: Obj, p: Pair) {
    Setting(c, st, want, Some(WithValue(o, p))) && !RemovesObject(st, want) && KnownList(c, p.0) && p.1.Str?
  }

  lemma SeenShows(c: Client, o: Obj, p: Pair)
    requires KnownList(c, p.0)
    ensures !LooksAbsent(c, Some(WithValue(o, p)))
  {
    ValuesOf(WithValue(o, p).pairs, p.0, p.1);
    assert (p.0, p.1) == p;
    assert p.0 in View(c, WithValue(o, p)).lists;
  }

  lemma SeenGives(c: Client, st: State, want: Slice, o: Obj, p: Pair)
    requires SeenSetting(c, st, want, o, p)
    ensures Setting(c, st, want, Some(WithValue(o, p))) && WellTyped(c, WithValue(o, p)) && Wanted(c, st, want)
    ensures !LooksAbsent(c, Some(WithValue(o, p))) && !Blocked(c, st, want, Some(WithValue(o, p)))
    ensures st != Absent ==> Runnable(c, st, want, Some(WithValue(o, p)))
    ensures st == Absent ==> want != NOTHING
  {
    hide ValidClient, Wanted, WellTyped, View, DeltaOf, WantsBase;
    SeenShows(c, o, p);
  }

  // ---------- what the server makes of the requests ----------

  /** The requests for what is seen, served on what is there: everything as the run wants it of
      what is seen, except that the value is not gained. */
  lemma SeenServed(c: Client, st: State, want: Slice, o: Obj, p: Pair)
    requires SeenSetting(c, st, want, o, p)
    ensures var q := Queue(c, st, false, want, Some(WithValue(o, p)));
      var full := ServeAll(c, Some(WithValue(o, p)), q);
      && full.Accepted? && full.obj.Some?
      && ServeAll(c, Some(o), q) == Accepted(Some(Unseen(full.obj.value, o, p)))
  {
    hide SeenSetting, Setting, Queue, EditOf, Independent, ServeAll, AfterAll, ExactlyOnce, Blocked, WellTyped, Wanted, DeltaOf,
         WritesApart, LooksAbsent, Runnable, Unseen;
    var seen := WithValue(o, p);
    var q := Queue(c, st, false, want, Some(seen));
    SeenRemoves(c, st, want, o, p);
    SeenGives(c, st, want, o, p);
    QueueFacts(c, st, want, seen);
    NeverAdded(c, q, Pairs(DeltaOf(c, st, want, Some(seen)).listAdd), p);
    PostedSum(c, q, seen);
    PostedSum(c, q, o);
    var full := ServeAll(c, Some(seen), q).obj.value;
    SumUnseen(c, Elems(q), o, p, full);
    SumUnique(c, Elems(q), o, Unseen(full, o, p), ServeAll(c, Some(o), q).obj.value);
  }

  lemma SeenRemoves(c: Client, st: State, want: Slice, o: Obj, p: Pair)
    requires SeenSetting(c, st, want, o, p)
    ensures !RemovesObject(st, want)
  {
    hide Setting;
  }

  lemma NeverAdded(c: Client, q: seq<Request>, add: set<Pair>, p: Pair)
    requires ExactlyOnce(c, q, ListAdd, add) && p !in add
    ensures forall r | r in Elems(q) :: p !in EditOf(c, r).add
  {
    hide EditOf;
    forall r | r in Elems(q) ensures p !in EditOf(c, r).add {
      var i :| 0 <= i < |q| && q[i] == r;
      assert Carries(c, q[i], ListAdd) <= add;
    }
  }

  lemma SumUnseen(c: Client, rs: set<Request>, o: Obj, p: Pair, full: Obj)
    requires AfterAll(c, rs, WithValue(o, p), full) && forall r | r in rs :: p !in EditOf(c, r).add
    ensures AfterAll(c, rs, o, Unseen(full, o, p))
  {
    hide EditOf, ScalarAfter;
    var seen, now := WithValue(o, p), Unseen(full, o, p);
    forall k ensures ScalarAfter(c, rs, o, now, k) {
      assert ScalarAfter(c, rs, seen, full, k);
      SameScalars(c, rs, seen, full, o, now, k);
    }
    forall x: Pair ensures x in now.pairs <==>
      || (exists r | r in rs :: x in EditOf(c, r).add)
      || (x in o.pairs && forall r | r in rs :: x !in EditOf(c, r).del)
    {
      assert x in full.pairs <==>
        || (exists r | r in rs :: x in EditOf(c, r).add)
        || (x in seen.pairs && forall r | r in rs :: x !in EditOf(c, r).del);
    }
  }

  lemma SameScalars(c: Client, rs: set<Request>, o: Obj, now: Obj, o': Obj, now': Obj, k: string)
    requires ScalarAfter(c, rs, o, now, k) && o.scalars == o'.scalars && now.scalars == now'.scalars
    ensures ScalarAfter(c, rs, o', now', k)
  {
    hide EditOf;
  }

  /** The value is to be removed exactly if `exact` does not want it or `absent` names it; then
      one request asks for that, whether or not the object has it. */
  lemma DroppedIff(c: Client, st: State, want: Slice, o: Obj, p: Pair)
    requires SeenSetting(c, st, want, o, p)
    ensures var q := Queue(c, st, false, want, Some(WithValue(o, p)));
      Dropped(st, want, p) <==> exists i | 0 <= i < |q| :: p in Carries(c, q[i], ListDel)
  {
    hide SeenSetting, Setting, Queue, Carries, Blocked, WellTyped, Wanted, LooksAbsent, Runnable, View, RemovesObject;
    var seen := WithValue(o, p);
    var q := Queue(c, st, false, want, Some(seen));
    SeenRemoves(c, st, want, o, p);
    SeenGives(c, st, want, o, p);
    KnownPair(c, st, want, o, p);
    DeliveredExactlyOnce(c, st, want, Some(seen), ListDel);
    DeltaPairs(c, st, want, View(c, seen));
    ViewPairs(c, seen);
    assert p in Pairs(DeltaOf(c, st, want, Some(seen)).listDel) <==> Dropped(st, want, p);
  }

  lemma KnownPair(c: Client, st: State, want: Slice, o: Obj, p: Pair)
    requires SeenSetting(c, st, want, o, p)
    ensures KnownList(c, p.0) && p.1.Str?
  {
    hide Setting;
  }

  // ---------- one run ----------

  /** What the run leaves of what is seen. */
  ghost function Reached(c: Client, st: State, want: Slice, o: Obj, p: Pair): Obj
    requires SeenSetting(c, st, want, o, p)
  {
    SeenGives(c, st, want, o, p);
    if st == Absent then Lessened(c, want, Some(WithValue(o, p)), Pairs(want.lists)) else After(c, st, want, Some(WithValue(o, p)))
  }

  /** What the run leaves. */
  ghost function Kept(c: Client, st: State, want: Slice, o: Obj, p: Pair): Obj
    requires SeenSetting(c, st, want, o, p)
  {
    Unseen(Reached(c, st, want, o, p), o, p)
  }

  lemma RunOnSeen(c: Client, st: State, want: Slice, o: Obj, p: Pair)
    requires SeenSetting(c, st, want, o, p)
    ensures Run(c, st, false, want, Some(WithValue(o, p))).Done?
    ensures Run(c, st, false, want, Some(WithValue(o, p))).obj == Some(Reached(c, st, want, o, p))
    ensures WellTyped(c, Reached(c, st, want, o, p))
  {
    hide SeenSetting, Setting, Run, Blocked, WellTyped, Wanted, LooksAbsent, Runnable, After, Lessened, Queue;
    SeenGives(c, st, want, o, p);
    if st == Absent {
      AbsentRunTwice(c, want, Some(WithValue(o, p)));
    } else {
      RunGives(c, st, want, Some(WithValue(o, p)));
      StaysTyped(c, st, want, Some(WithValue(o, p)));
    }
  }

  /** The server accepts the whole queue, and leaves that. */
  lemma SeenRun(c: Client, st: State, want: Slice, o: Obj, p: Pair)
    requires SeenSetting(c, st, want, o, p)
    ensures ServeAll(c, Some(o), Queue(c, st, false, want, Some(WithValue(o, p)))) == Accepted(Some(Kept(c, st, want, o, p)))
  {
    hide SeenSetting, Run, ServeAll, Queue, WellTyped, Reached, Unseen;
    SeenServed(c, st, want, o, p);
    RunOnSeen(c, st, want, o, p);
    RunIs(c, st, false, want, Some(WithValue(o, p)));
  }

  // ---------- the next run ----------

  lemma SeenAgain(full: Obj, o: Obj, p: Pair)
    ensures WithValue(Unseen(full, o, p), p) == WithValue(full, p)
    ensures p in full.pairs ==> WithValue(full, p) == full
  {
    assert full.pairs - {p} + {p} == full.pairs + {p};
    assert p in full.pairs ==> full.pairs + {p} == full.pairs;
  }

  lemma StillSeen(c: Client, st: State, want: Slice, o: Obj, p: Pair)
    requires SeenSetting(c, st, want, o, p)
    ensures SeenSetting(c, st, want, Kept(c, st, want, o, p), p) && SeenSetting(c, st, want, Reached(c, st, want, o, p), p)
    ensures WithValue(Kept(c, st, want, o, p), p) == WithValue(Reached(c, st, want, o, p), p)
  {
    hide Setting, Run, Wanted, Reached, Unseen, WithValue, KnownList, WellTyped, RemovesObject;
    RunOnSeen(c, st, want, o, p);
    var full := Reached(c, st, want, o, p);
    SeenAgain(full, o, p);
    SeenTyped(c, full, p);
    SameSetting(c, st, want, Some(WithValue(o, p)), Some(WithValue(full, p)));
  }

  lemma SeenTyped(c: Client, o: Obj, p: Pair)
    requires WellTyped(c, o) && KnownList(c, p.0) && p.1.Str?
    ensures WellTyped(c, WithValue(o, p))
  {
  }

  lemma SameSetting(c: Client, st: State, want: Slice, o: Option<Obj>, o': Option<Obj>)
    requires Setting(c, st, want, o) && (o'.Some? ==> WellTyped(c, o'.value))
    ensures Setting(c, st, want, o')
  {
    hide ValidClient, Wanted, WellTyped;
  }

  /** The value is left exactly unless it was to be removed. */
  lemma LeftUnlessDropped(c: Client, st: State, want: Slice, o: Obj, p: Pair)
    requires SeenSetting(c, st, want, o, p)
    ensures p in Reached(c, st, want, o, p).pairs <==> !Dropped(st, want, p)
  {
    hide SeenSetting, Setting, Run, Blocked, WellTyped, Wanted, LooksAbsent, Runnable, After, Pairs, ScalarsAfter, EnableScalars,
         ScalarsWithout, Assign;
    SeenGives(c, st, want, o, p);
    KnownPair(c, st, want, o, p);
    if st != Absent { AfterIs(c, st, want, Some(WithValue(o, p))); }
  }

  /** The second queue is empty exactly if the value was not to be removed (and, under `absent`,
      no scalar was named with its own default). */
  lemma NextQueueEmptyIff(c: Client, st: State, want: Slice, o: Obj, p: Pair)
    requires SeenSetting(c, st, want, o, p)
    ensures Queue(c, st, false, want, Some(WithValue(Kept(c, st, want, o, p), p))) == [] <==>
      !Dropped(st, want, p) && (st == Absent ==> !ResetsToItself(c, want.scalars, o.scalars))
  {
    hide Setting, Run, Wanted, Kept, WellTyped, Queue, ResetsToItself, Reached, Lessened, LooksAbsent, Blocked, Dropped, RemovesObject,
         ListsMet, ScalarsMet, EnableMet, WithValue, KnownList, ScalarsWithout;
    SeenGives(c, st, want, o, p);
    StillSeen(c, st, want, o, p);
    SeenGives(c, st, want, Kept(c, st, want, o, p), p);
    LeftUnlessDropped(c, st, want, o, p);
    SeenAgain(Reached(c, st, want, o, p), o, p);
    if st == Absent {
      NextAbsent(c, want, o, p);
    } else {
      NextOther(c, st, want, o, p);
    }
  }

  lemma NextOther(c: Client, st: State, want: Slice, o: Obj, p: Pair)
    requires SeenSetting(c, st, want, o, p) && st != Absent
    requires SeenSetting(c, st, want, Reached(c, st, want, o, p), p)
    ensures Queue(c, st, false, want, Some(WithValue(Reached(c, st, want, o, p), p))) == [] <==> !Dropped(st, want, p)
  {
    hide SeenSetting, Setting, Run, Wanted, Kept, WellTyped, Queue, LooksAbsent, Blocked, ScalarsMet, EnableMet, KnownList, Runnable,
         After, Pairs, ListsMet;
    var full := Reached(c, st, want, o, p);
    SeenGives(c, st, want, o, p);
    SeenGives(c, st, want, full, p);
    GoalReached(c, st, want, Some(WithValue(o, p)));
    LeftUnlessDropped(c, st, want, o, p);
    SeenAgain(full, o, p);
    QueueEmptyIff(c, st, want, WithValue(full, p));
    if Dropped(st, want, p) {
      KnownPair(c, st, want, o, p);
      NotMet(c, want, WithValue(full, p), p);
    }
  }

  lemma NotMet(c: Client, want: Slice, o: Obj, p: Pair)
    requires p in o.pairs && KnownList(c, p.0) && p !in Pairs(want.lists)
    ensures !ListsMet(c, Exact, want, o)
  {
    assert p in set x | x in o.pairs && KnownList(c, x.0);
  }

  lemma NextAbsent(c: Client, want: Slice, o: Obj, p: Pair)
    requires SeenSetting(c, Absent, want, o, p)
    requires SeenSetting(c, Absent, want, Reached(c, Absent, want, o, p), p)
    ensures Queue(c, Absent, false, want, Some(WithValue(Reached(c, Absent, want, o, p), p))) == [] <==>
      !Dropped(Absent, want, p) && !ResetsToItself(c, want.scalars, o.scalars)
  {
    hide SeenSetting, Setting, Run, Wanted, Kept, WellTyped, Queue, LooksAbsent, Blocked, KnownList, Runnable, Pairs, ScalarsWithout,
         Matches;
    var full := Reached(c, Absent, want, o, p);
    SeenGives(c, Absent, want, o, p);
    SeenGives(c, Absent, want, full, p);
    WantedFacts(c, Absent, want);
    AbsentQueueEmptyIff(c, want, WithValue(full, p));
    MatchesAgain(c, want.scalars, o.scalars);
    assert Pairs(want.lists) !! WithValue(full, p).pairs <==> p !in Pairs(want.lists);
  }

  /** However often it is repeated, the run leaves what it left the first time. */
  lemma KeptForGood(c: Client, st: State, want: Slice, o: Obj, p: Pair)
    requires SeenSetting(c, st, want, o, p)
    ensures SeenSetting(c, st, want, Kept(c, st, want, o, p), p)
    ensures Kept(c, st, want, Kept(c, st, want, o, p), p) == Kept(c, st, want, o, p)
  {
    hide SeenSetting, Reached, Dropped;
    StillSeen(c, st, want, o, p);
    LeftUnlessDropped(c, st, want, o, p);
    LeftUnlessDropped(c, st, want, Kept(c, st, want, o, p), p);
    var full := Reached(c, st, want, o, p);
    var again := Reached(c, st, want, Kept(c, st, want, o, p), p);
    ReachedAgain(c, st, want, o, p);
    assert p !in full.pairs ==> full.pairs - {p} == full.pairs;
  }

  lemma ReachedAgain(c: Client, st: State, want: Slice, o: Obj, p: Pair)
    requires SeenSetting(c, st, want, o, p) && SeenSetting(c, st, want, Kept(c, st, want, o, p), p)
    ensures Reached(c, st, want, Kept(c, st, want, o, p), p) == Reached(c, st, want, o, p)
  {
    hide SeenSetting, Setting, Run, Wanted, Kept, WellTyped, Queue, LooksAbsent, Blocked, KnownList, Runnable, After,
         Lessened, WithValue;
    StillSeen(c, st, want, o, p);
    SeenGives(c, st, want, o, p);
    SeenGives(c, st, want, Kept(c, st, want, o, p), p);
    if st == Absent {
      AbsentAgain(c, want, o, p);
    } else {
      OtherAgain(c, st, want, o, p);
    }
  }

  lemma AbsentAgain(c: Client, want: Slice, o: Obj, p: Pair)
    ensures var full := Lessened(c, want, Some(WithValue(o, p)), Pairs(want.lists));
      Lessened(c, want, Some(WithValue(full, p)), Pairs(want.lists)) == full
  {
    hide ScalarsWithout, Pairs;
    var named := Pairs(want.lists);
    var full := Lessened(c, want, Some(WithValue(o, p)), named);
    LessenedTwice(c, want, Some(WithValue(o, p)), named);
    assert full.pairs + {p} - named == full.pairs;
  }

  lemma OtherAgain(c: Client, st: State, want: Slice, o: Obj, p: Pair)
    requires SeenSetting(c, st, want, o, p) && st != Absent
    requires SeenSetting(c, st, want, Reached(c, st, want, o, p), p)
    ensures Reached(c, st, want, Reached(c, st, want, o, p), p) == Reached(c, st, want, o, p)
  {
    hide SeenSetting, Setting, Run, Wanted, WellTyped, Queue, LooksAbsent, Blocked, KnownList, Runnable, After, Lessened, AtGoal,
         EnableMet, ListsMet, ScalarsMet, WithValue, Dropped;
    var full := Reached(c, st, want, o, p);
    SeenGives(c, st, want, o, p);
    SeenGives(c, st, want, full, p);
    LeftUnlessDropped(c, st, want, o, p);
    SeenAgain(full, o, p);
    FullIsFixed(c, st, want, Some(WithValue(o, p)));
    if Dropped(st, want, p) {
      DroppedIsExact(st, want, p);
      KnownPair(c, st, want, o, p);
      ExactAgain(c, want, full, p);
    }
  }

  lemma DroppedIsExact(st: State, want: Slice, p: Pair)
    requires Dropped(st, want, p) && st != Absent
    ensures st == Exact && p !in Pairs(want.lists)
  {
  }

  /** A run that met its goal does nothing the next time. */
  lemma FullIsFixed(c: Client, st: State, want: Slice, o: Option<Obj>)
    requires Runnable(c, st, want, o) && o.Some? && !LooksAbsent(c, o)
    ensures var full := After(c, st, want, o);
      Runnable(c, st, want, Some(full)) && After(c, st, want, Some(full)) == full
  {
    hide Setting, Run, WellTyped, After, Queue, WantsBase;
    if Toggles(st) {
      ToggleStep(c, st, want, o);
      SilentOnceMet(c, st, want, After(c, st, want, o));
    } else {
      RunnableAgain(c, st, want, o);
      SecondRunSilent(c, st, want, o);
      RunGives(c, st, want, Some(After(c, st, want, o)));
    }
  }

  lemma RunnableAgain(c: Client, st: State, want: Slice, o: Option<Obj>)
    requires Runnable(c, st, want, o) && !LooksAbsent(c, o) && !Toggles(st)
    ensures Runnable(c, st, want, Some(After(c, st, want, o)))
  {
    var full := After(c, st, want, o);
    StaysTyped(c, st, want, o);
    GoalReached(c, st, want, o);
    SameSetting(c, st, want, o, Some(full));
    hide Setting, After, WellTyped;
    if WantsBase(c, want) { ShowsBase(c, st, want, full); }
  }

  lemma ShowsBase(c: Client, st: State, want: Slice, o: Obj)
    requires Setting(c, st, want, Some(o)) && WantsBase(c, want) && ListsMet(c, st, want, o) && ScalarsMet(c, st, want, o)
    ensures !LooksAbsent(c, Some(o))
  {
    var v := View(c, o);
    var k :| k in c.baseKeys && (k in want.scalars || k in want.lists);
    if k in want.scalars {
      assert k in v.scalars;
    } else {
      var a :| a in want.lists[k];
      assert (k, a) in Pairs(want.lists) && (k, a) in o.pairs by {
        assert forall x | x in (set x | x in o.pairs && KnownList(c, x.0)) :: x in o.pairs;
      }
      ValuesOf(o.pairs, k, a);
      assert k in v.lists;
    }
  }

  /** Under `exact` a value that is not wanted makes no difference to what is reached. */
  lemma ExactAgain(c: Client, want: Slice, o: Obj, p: Pair)
    requires Runnable(c, Exact, want, Some(o)) && Runnable(c, Exact, want, Some(WithValue(o, p)))
    requires KnownList(c, p.0) && p !in Pairs(want.lists)
    ensures After(c, Exact, want, Some(WithValue(o, p))) == After(c, Exact, want, Some(o))
  {
    hide Setting, Runnable, After, ScalarsAfter, Assign, EnableScalars, Pairs, KnownList, WellTyped, Wanted;
    RunnableGives(c, Exact, want, Some(o));
    AfterIs(c, Exact, want, Some(o));
    AfterIs(c, Exact, want, Some(WithValue(o, p)));
    EnableScalarsAre(c, Exact, want, Some(o));
    EnableScalarsAre(c, Exact, want, Some(WithValue(o, p)));
    var w := Pairs(want.lists);
    assert PairsAfter(c, Exact, w, o.pairs + {p}) == PairsAfter(c, Exact, w, o.pairs);
  }

  /** The goal is met from the first run on, unless the value is wanted and not there: the
      client believes it is, and never adds it. */
  lemma GoalUnlessOnlySeen(c: Client, st: State, want: Slice, o: Obj, p: Pair)
    requires SeenSetting(c, st, want, o, p) && st != Absent
    ensures AtGoal(c, st, want, Kept(c, st, want, o, p)) <==> (p in Pairs(want.lists) ==> p in o.pairs)
  {
    hide SeenSetting, Setting, Run, WellTyped, LooksAbsent, Blocked, Runnable, After, Lessened, Wanted, Pairs, KnownList;
    SeenGives(c, st, want, o, p);
    KnownPair(c, st, want, o, p);
    GoalReached(c, st, want, Some(WithValue(o, p)));
    var full := Reached(c, st, want, o, p);
    hide Reached;
    assert p in Pairs(want.lists) ==> p in full.pairs;
    assert full.pairs - {p} == set x | x in full.pairs && x != p;
  }

  // ---------- users ----------

  /** user: the server adds the realm to the names and wraps the canonical name like the rest. */
  ghost predicate WrappingServer(render: Obj -> Dict, extra: Dict, canonical: Atom, realm: string) {
    && Foreign(USER, extra) && canonical.Str? && '@' !in realm
    && forall o :: render(o) == UserWire(View(USER, o), extra, Many([canonical]), canonical, realm)
  }

  lemma WrappedSpeaks(params: Dict, render: Obj -> Dict, extra: Dict, canonical: Atom, realm: string, o: Obj)
    requires WrappingServer(render, extra, canonical, realm) && WellTyped(USER, o) && BarePairs(o.pairs)
    ensures Represents(USER, params, render(o), Some(WithValue(o, AliasOf(canonical))))
  {
    hide USER, Represents, UserWire, View, Foreign, WellTyped, BareNames, BarePairs, Principal;
    BareView(USER, o);
    WrappedNameIsAlias(params, o, extra, canonical, realm);
  }

  /** One run against such a server. */
  method RunWrapped(st: State, params: Dict, server: Server, ghost extra: Dict, ghost canonical: Atom, ghost realm: string)
    requires server.c == USER && server.obj.Some?
    requires TypedParams(USER, params) && CanonParams(USER, st, params).Some?
    requires WrappingServer(server.render, extra, canonical, realm)
    requires WellTyped(USER, server.obj.value) && BarePairs(server.obj.value.pairs)
    requires SeenSetting(USER, st, WantedFrom(USER, st, params), server.obj.value, AliasOf(canonical))
    modifies server
    ensures var want, o, p := WantedFrom(USER, st, params), old(server.obj).value, AliasOf(canonical);
      && server.obj == Some(Kept(USER, st, want, o, p))
      && server.log == old(server.log) + [FIND_REQUEST] + Queue(USER, st, false, want, Some(WithValue(o, p)))
  {
    hide USER, ValidClient, TypedParams, CanonParams, Represents, Canonical.GetSlice, WellTyped, Queue, ServeAll, Serve, SeenSetting,
         Kept, BarePairs, WrappingServer, WithValue, AliasOf, Setting, Run, LooksAbsent, Blocked, Wanted, Runnable, MarksChanged;
    UserToggles();
    UserValid();
    ghost var want, o, p := WantedFrom(USER, st, params), server.obj.value, AliasOf(canonical);
    ghost var q := Queue(USER, st, false, want, Some(WithValue(o, p)));
    WrappedSpeaks(params, server.render, extra, canonical, realm, o);
    SeenGives(USER, st, want, o, p);
    SeenRun(USER, st, want, o, p);
    var client := new IPAClient(USER, st, false, params, server);
    var ok := client.EnsureSeen(Some(WithValue(o, p)));
    if !ok {
      ghost var i :| 0 <= i < |q| && ServeAll(USER, Some(o), q[..i]) == Accepted(server.obj)
        && Serve(USER, server.obj, q[i]) == Refused;
      PrefixRefused(USER, Some(o), q, i);
      assert false;
    }
  }

  /** Two such runs on a user with bare aliases, in any state: what the first leaves the second
      leaves too, and the second posts nothing but `find` exactly if the canonical name was not
      to be removed. */
  method WrappedTwice(st: State, params: Dict, server: Server, ghost extra: Dict, ghost canonical: Atom, ghost realm: string)
    requires server.c == USER && server.obj.Some?
    requires TypedParams(USER, params) && CanonParams(USER, st, params).Some?
    requires !RemovesObject(st, WantedFrom(USER, st, params)) && BarePairs(Pairs(WantedFrom(USER, st, params).lists))
    requires WrappingServer(server.render, extra, canonical, realm)
    requires WellTyped(USER, server.obj.value) && BarePairs(server.obj.value.pairs)
    modifies server
    ensures var want, o, p := WantedFrom(USER, st, params), old(server.obj).value, AliasOf(canonical);
      && SeenSetting(USER, st, want, o, p)
      && var now := Kept(USER, st, want, o, p);
      && SeenSetting(USER, st, want, now, p)
      && server.obj == Some(now)
      && var again := Queue(USER, st, false, want, Some(WithValue(now, p)));
      && server.log == old(server.log) + [FIND_REQUEST] + Queue(USER, st, false, want, Some(WithValue(o, p))) + [FIND_REQUEST] + again
      && (again == [] <==> !Dropped(st, want, p))
  {
    hide *;
    ghost var want, o, p := WantedFrom(USER, st, params), server.obj.value, AliasOf(canonical);
    CanonicalIsString(server.render, extra, canonical, realm);
    UserSetting(st, params, o, canonical);
    RunWrapped(st, params, server, extra, canonical, realm);
    KeptForGood(USER, st, want, o, p);
    KeptUser(st, want, o, p);
    NextQueueEmptyIff(USER, st, want, o, p);
    RunWrapped(st, params, server, extra, canonical, realm);
  }

  lemma CanonicalIsString(render: Obj -> Dict, extra: Dict, canonical: Atom, realm: string)
    requires WrappingServer(render, extra, canonical, realm)
    ensures canonical.Str?
  {
    hide USER, Foreign, UserWire, View;
  }

  lemma UserSetting(st: State, params: Dict, o: Obj, canonical: Atom)
    requires TypedParams(USER, params) && CanonParams(USER, st, params).Some? && canonical.Str?
    requires !RemovesObject(st, WantedFrom(USER, st, params)) && WellTyped(USER, o)
    ensures SeenSetting(USER, st, WantedFrom(USER, st, params), o, AliasOf(canonical))
  {
    hide USER, ValidClient, TypedParams, CanonParams, WellTyped, Setting, RemovesObject, WantedFrom, KnownList;
    UserToggles();
    UserValid();
    UserKeys();
    PrincipalIsString(canonical);
    SeenTyped(USER, o, AliasOf(canonical));
    FromParams(USER, st, params, Some(WithValue(o, AliasOf(canonical))));
  }

  lemma PrincipalIsString(a: Atom)
    requires a.Str?
    ensures Principal(a).Str?
  {
  }

  /** What is left is typed and bare, and no scalar is named with its own default. */
  lemma KeptUser(st: State, want: Slice, o: Obj, p: Pair)
    requires SeenSetting(USER, st, want, o, p) && WellTyped(USER, o) && BarePairs(o.pairs) && BarePairs(Pairs(want.lists))
    ensures WellTyped(USER, Kept(USER, st, want, o, p)) && BarePairs(Kept(USER, st, want, o, p).pairs)
    ensures !ResetsToItself(USER, want.scalars, o.scalars)
  {
    hide USER, Setting, WellTyped, BarePairs, Wanted, Reached, Pairs, KnownList, RemovesObject, LooksAbsent, Blocked, Runnable,
         ResetsToItself;
    SeenGives(USER, st, want, o, p);
    RunOnSeen(USER, st, want, o, p);
    UnseenTyped(USER, Reached(USER, st, want, o, p), o, p);
    SettingWants(USER, st, want, Some(WithValue(o, p)));
    UserResetsNothing(want.scalars, o.scalars);
    ReachedPairs(USER, st, want, o, p);
    BareUnseen(Reached(USER, st, want, o, p), o, p, Pairs(want.lists));
  }

  lemma UnseenTyped(c: Client, full: Obj, o: Obj, p: Pair)
    requires WellTyped(c, full)
    ensures WellTyped(c, Unseen(full, o, p))
  {
  }

  lemma ReachedPairs(c: Client, st: State, want: Slice, o: Obj, p: Pair)
    requires SeenSetting(c, st, want, o, p)
    ensures Reached(c, st, want, o, p).pairs <= WithValue(o, p).pairs + Pairs(want.lists)
  {
    hide SeenSetting, Setting, Run, WellTyped, LooksAbsent, Blocked, Runnable, After, Wanted, Pairs, ScalarsAfter, EnableScalars,
         ScalarsWithout, Assign;
    SeenGives(c, st, want, o, p);
    if st != Absent { AfterIs(c, st, want, Some(WithValue(o, p))); }
  }

  lemma BareUnseen(full: Obj, o: Obj, p: Pair, want: set<Pair>)
    requires BarePairs(o.pairs) && BarePairs(want) && full.pairs <= WithValue(o, p).pairs + want
    ensures BarePairs(Unseen(full, o, p).pairs)
  {
  }
}
