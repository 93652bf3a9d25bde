/** The main results about runs of the engine. */
module Theorems {
  import opened Strings
  import opened IpaModel
  import opened Changes
  import opened Requests
  import opened QueueEffect
  import opened Convergence
  import opened Runs

  /** A run in this state and on this object goes through. */
  ghost predicate Runnable(c: Client, st: State, want: Slice, o: Option<Obj>) {
    Setting(c, st, want, o) && st != Absent && !(LooksAbsent(c, o) && WantsBase(c, want))
  }

  ghost function After(c: Client, st: State, want: Slice, o: Option<Obj>): Obj
    requires Runnable(c, st, want, o)
  {
    RunReaches(c, st, want, o);
    Run(c, st, false, want, o).obj.value
  }

  lemma WantedFacts(c: Client, st: State, want: Slice)
    requires Wanted(c, st, want)
    ensures forall p | p in Pairs(want.lists) :: KnownList(c, p.0) && p.1.Str?
    ensures forall k | k in want.scalars :: want.scalars[k] != Null && !IsList(c, k)
    ensures forall k | k in want.scalars && Known(c, k) :: Typed(c.paramData[k], want.scalars[k])
  {
  }

  lemma RunnableGives(c: Client, st: State, want: Slice, o: Option<Obj>)
    requires Runnable(c, st, want, o)
    ensures st != Absent && Setting(c, st, want, o) && Wanted(c, st, want) && ValidEnableKey(c)
    ensures o.Some? ==> WellTyped(c, o.value)
  {
    hide Wanted, ValidNames, ValidRoutes, ValidDefaults, ValidEnableKey, WellTyped, WantsBase, LooksAbsent;
  }

  lemma AfterIs(c: Client, st: State, want: Slice, o: Option<Obj>)
    requires Runnable(c, st, want, o)
    ensures After(c, st, want, o) ==
      Obj(Assign(ScalarsAfter(c, st, want.scalars, Start(c, o).scalars), EnableScalars(c, st, want, o)),
          PairsAfter(c, st, Pairs(want.lists), Start(c, o).pairs))
  {
    hide Setting, Run, WantsBase, LooksAbsent, Assign, ScalarsAfter, EnableScalars, PairsAfter, Start;
    RunReaches(c, st, want, o);
  }

  // ---------- one run reaches the goal ----------

  lemma ListsReached(c: Client, st: State, want: Slice, o: Option<Obj>)
    requires Runnable(c, st, want, o)
    ensures ListsMet(c, st, want, After(c, st, want, o))
  {
    hide Runnable, Setting, WellTyped, Wanted, ValidEnableKey, ScalarsAfter, EnableScalars, After, Assign, Start;
    RunnableGives(c, st, want, o);
    AfterIs(c, st, want, o);
    WantedFacts(c, st, want);
    KnownAfter(c, st, Pairs(want.lists), Start(c, o).pairs);
  }

  /** The pairs a client knows after a run. */
  lemma KnownAfter(c: Client, st: State, want: set<Pair>, start: set<Pair>)
    requires st != Absent && forall p | p in want :: KnownList(c, p.0)
    ensures var now := PairsAfter(c, st, want, start);
      want <= now && (st == Exact ==> (set p | p in now && KnownList(c, p.0)) == want)
  {
  }

  lemma BaseScalarsReached(c: Client, st: State, want: Scalars, start: Scalars, on: Scalars)
    requires on.Keys !! c.baseKeys && forall k | k in want :: want[k] != Null
    ensures var now := Assign(ScalarsAfter(c, st, want, start), on);
      && (forall k | k in want && k in c.baseKeys :: k in now && now[k] == want[k])
      && (st == Exact ==> forall k | k in now && k in c.baseKeys && Known(c, k) :: k in want)
      && (forall k | k !in c.baseKeys && k !in on :: (k in now <==> k in start) && (k in start ==> now[k] == start[k]))
  {
  }

  lemma EnableScalarsAre(c: Client, st: State, want: Slice, o: Option<Obj>)
    requires Wanted(c, st, want) && ValidEnableKey(c) && st != Absent
    ensures var on := EnableScalars(c, st, want, o);
      && on.Keys !! c.baseKeys
      && (on != map[] ==> Toggles(st) && c.enableKey.Some? && c.enableKey.value in want.scalars)
      && (on != map[] ==> on == map[c.enableKey.value := want.scalars[c.enableKey.value]])
      && (on == map[] ==> !Toggles(st) || ViewOf(c, o) == NOTHING || EnableMet(c, want, o.value))
  {
    if Toggles(st) && o.Some? {
      EnableGoalDelta(c, st, want, o.value);
      assert EnableActive(c, st, false, DeltaOf(c, st, want, o), ViewOf(c, o) == NOTHING) ==>
        c.enableKey.value in EnableScalars(c, st, want, o);
    }
  }

  /** One run that is not refused reaches its goal. The enable key is the exception: on a
      missing object, which is created enabled, only `enabled` finds it as it should be. */
  lemma GoalReached(c: Client, st: State, want: Slice, o: Option<Obj>)
    requires Runnable(c, st, want, o)
    ensures var now := After(c, st, want, o);
      && ListsMet(c, st, want, now) && ScalarsMet(c, st, want, now)
      && (Toggles(st) && o.Some? && !LooksAbsent(c, o) ==> EnableMet(c, want, now))
      && (Toggles(st) && o.None? ==> (EnableMet(c, want, now) <==> st == Enabled))
  {
    hide Runnable, Setting, WellTyped, ListsMet, PairsAfter, Wanted, ValidEnableKey, ScalarsAfter, EnableScalars, Assign, After,
         Start;
    RunnableGives(c, st, want, o);
    if Toggles(st) && !LooksAbsent(c, o) { EnableReached(c, st, want, o); }
    AfterIs(c, st, want, o);
    ListsReached(c, st, want, o);
    EnableScalarsAre(c, st, want, o);
    WantedFacts(c, st, want);
    BaseScalarsReached(c, st, want.scalars, Start(c, o).scalars, EnableScalars(c, st, want, o));
  }

  lemma EnableReached(c: Client, st: State, want: Slice, o: Option<Obj>)
    requires Wanted(c, st, want) && ValidEnableKey(c) && Toggles(st) && !LooksAbsent(c, o)
    ensures var e := c.enableKey.value;
      var now := Assign(ScalarsAfter(c, st, want.scalars, Start(c, o).scalars), EnableScalars(c, st, want, o));
      && c.enableKey.Some? && e in want.scalars && e in now
      && (now[e] == want.scalars[e] <==> o.Some? || st == Enabled)
  {
    EnableScalarsAre(c, st, want, o);
  }

  /** `present`, spelled out: the wanted values are added and the wanted base scalars set. */
  lemma PresentConverges(c: Client, want: Slice, o: Option<Obj>)
    requires Runnable(c, Present, want, o)
    ensures Run(c, Present, false, want, o).Done? && Run(c, Present, false, want, o).obj ==
      Some(Obj(Start(c, o).scalars + RestrictScalars(want.scalars, c.baseKeys),
               Start(c, o).pairs + Pairs(want.lists)))
  {
    RunReaches(c, Present, want, o);
    EnableScalarsAre(c, Present, want, o);
    PresentScalars(c, want.scalars, Start(c, o).scalars);
  }

  lemma PresentScalars(c: Client, want: Scalars, start: Scalars)
    ensures Assign(ScalarsAfter(c, Present, want, start), map[]) == start + RestrictScalars(want, c.baseKeys)
  {
  }

  /** What the client does not know of, and what it has no request for, stays. */
  lemma NothingElseTouched(c: Client, st: State, want: Slice, o: Option<Obj>)
    requires Runnable(c, st, want, o)
    ensures var now := After(c, st, want, o);
      && (forall p: Pair | !KnownList(c, p.0) :: p in now.pairs <==> p in Start(c, o).pairs)
      && (forall k | k !in c.baseKeys && Some(k) != c.enableKey ::
            (k in now.scalars <==> k in Start(c, o).scalars)
            && (k in now.scalars ==> now.scalars[k] == Start(c, o).scalars[k]))
      && (st != Exact ==> Start(c, o).pairs <= now.pairs && Start(c, o).scalars.Keys <= now.scalars.Keys)
  {
    hide Runnable, Setting, WellTyped, Wanted, ValidEnableKey, ScalarsAfter, EnableScalars, Assign, After, EnableMet, Start;
    RunnableGives(c, st, want, o);
    AfterIs(c, st, want, o);
    EnableScalarsAre(c, st, want, o);
    WantedFacts(c, st, want);
    PairsFrame(c, st, Pairs(want.lists), Start(c, o).pairs);
    hide PairsAfter;
    if st != Exact { KeysGrow(c, st, want.scalars, Start(c, o).scalars, EnableScalars(c, st, want, o)); }
    BaseScalarsReached(c, st, want.scalars, Start(c, o).scalars, EnableScalars(c, st, want, o));
  }

  /** The switch is left to `enabled` and `disabled`: other runs write no scalar but those of
      the base requests, even if it was given a value. */
  lemma SwitchLeftAlone(c: Client, st: State, want: Slice, o: Option<Obj>)
    requires Runnable(c, st, want, o) && !Toggles(st)
    ensures var now := After(c, st, want, o);
      forall k | k !in c.baseKeys ::
        (k in now.scalars <==> k in Start(c, o).scalars) && (k in now.scalars ==> now.scalars[k] == Start(c, o).scalars[k])
  {
    hide Runnable, Setting, WellTyped, Wanted, ValidEnableKey, ScalarsAfter, EnableScalars, Assign, After, EnableMet, Start;
    RunnableGives(c, st, want, o);
    AfterIs(c, st, want, o);
    EnableScalarsAre(c, st, want, o);
    WantedFacts(c, st, want);
    BaseScalarsReached(c, st, want.scalars, Start(c, o).scalars, EnableScalars(c, st, want, o));
  }

  lemma PairsFrame(c: Client, st: State, want: set<Pair>, start: set<Pair>)
    requires st != Absent && forall p | p in want :: KnownList(c, p.0)
    ensures forall p: Pair | !KnownList(c, p.0) :: p in PairsAfter(c, st, want, start) <==> p in start
    ensures st != Exact ==> start <= PairsAfter(c, st, want, start)
  {
  }

  lemma KeysGrow(c: Client, st: State, want: Scalars, start: Scalars, on: Scalars)
    requires st != Exact && forall k | k in on :: on[k] != Null
    ensures start.Keys <= Assign(ScalarsAfter(c, st, want, start), on).Keys
  {
  }

  /** Runs keep objects well typed, so the next run can start from the result. */
  lemma StaysTyped(c: Client, st: State, want: Slice, o: Option<Obj>)
    requires Runnable(c, st, want, o)
    ensures WellTyped(c, After(c, st, want, o))
  {
    hide Runnable, Setting, Wanted, ValidEnableKey, EnableScalars, WellTyped, After, Assign, ScalarsAfter, PairsAfter, Start;
    RunnableGives(c, st, want, o);
    StartTyped(c, o);
    EnableTyped(c, st, want, o);
    AfterIs(c, st, want, o);
    WantedFacts(c, st, want);
    TypedTogether(c, st, want, Start(c, o), EnableScalars(c, st, want, o));
  }

  lemma StartTyped(c: Client, o: Option<Obj>)
    requires ValidEnableKey(c) && (o.Some? ==> WellTyped(c, o.value))
    ensures WellTyped(c, Start(c, o))
  {
  }

  lemma EnableTyped(c: Client, st: State, want: Slice, o: Option<Obj>)
    requires ValidEnableKey(c) && Wanted(c, st, want) && st != Absent
    ensures forall k | k in EnableScalars(c, st, want, o) ::
      Known(c, k) && !IsList(c, k) && Typed(c.paramData[k], EnableScalars(c, st, want, o)[k])
  {
    EnableScalarsAre(c, st, want, o);
  }

  lemma TypedTogether(c: Client, st: State, want: Slice, start: Obj, on: Scalars)
    requires WellTyped(c, start) && st != Absent
    requires forall p | p in Pairs(want.lists) :: KnownList(c, p.0) && p.1.Str?
    requires forall k | k in want.scalars :: !IsList(c, k) && (Known(c, k) ==> Typed(c.paramData[k], want.scalars[k]))
    requires forall k | k in on :: Known(c, k) && !IsList(c, k) && Typed(c.paramData[k], on[k])
    ensures WellTyped(c, Obj(Assign(ScalarsAfter(c, st, want.scalars, start.scalars), on),
                             PairsAfter(c, st, Pairs(want.lists), start.pairs)))
  {
    var now := Assign(ScalarsAfter(c, st, want.scalars, start.scalars), on);
    forall k | k in now && Known(c, k) ensures !IsList(c, k) && Typed(c.paramData[k], now[k]) {
      assert k in on || k in want.scalars || k in start.scalars;
    }
  }

  // ---------- the second run ----------

  /** Idempotence: whatever the object was, a second `present` or `exact` run with the same
      parameters posts nothing but `find`, reports no change and leaves the object alone. */
  lemma SecondRunSilent(c: Client, st: State, want: Slice, o: Option<Obj>)
    requires Runnable(c, st, want, o) && !Toggles(st)
    ensures var now := After(c, st, want, o);
      Run(c, st, false, want, Some(now)) == Done(Some(now), [], false)
  {
    GoalReached(c, st, want, o);
    StaysTyped(c, st, want, o);
    SilentIff(c, st, want, After(c, st, want, o));
  }

  // ---------- the enable/disable machine ----------

  lemma VisibleAfter(c: Client, st: State, want: Slice, o: Option<Obj>)
    requires Runnable(c, st, want, o) && Toggles(st) && !LooksAbsent(c, o)
    ensures !LooksAbsent(c, Some(After(c, st, want, o)))
  {
    var now := After(c, st, want, o);
    var e := c.enableKey.value;
    RunReaches(c, st, want, o);
    EnableScalarsAre(c, st, want, o);
    BaseScalarsReached(c, st, want.scalars, Start(c, o).scalars, EnableScalars(c, st, want, o));
    GoalReached(c, st, want, o);
    assert e in now.scalars;
    assert e in View(c, now).scalars;
  }

  /** An object that shows nothing only gains the wanted members: the switch is skipped. */
  lemma ToggleOnBare(c: Client, st: State, want: Slice, o: Option<Obj>)
    requires Runnable(c, st, want, o) && Toggles(st) && LooksAbsent(c, o)
    ensures var once := After(c, st, want, o);
      && once == Obj(o.value.scalars, o.value.pairs + Pairs(want.lists))
      && !AtGoal(c, st, want, once)
      && (LooksAbsent(c, Some(once)) <==> want.lists == map[])
      && (want.lists == map[] ==> once == o.value)
  {
    hide Run, Queue, RestrictScalars, ScalarsAfter, Assign, PairsAfter, ListsMet, ScalarsMet, ValidRoutes, ValidNames, ValidDefaults,
         WantsBase, WellTyped, DeltaOf;
    var once := After(c, st, want, o);
    var e := c.enableKey.value;
    RunReaches(c, st, want, o);
    SwitchSkipped(c, st, want, o.value);
    NoBaseScalars(c, st, want, o.value.scalars);
    PairsGained(c, st, Pairs(want.lists), o.value.pairs);
    assert once == Obj(o.value.scalars, o.value.pairs + Pairs(want.lists));
    assert e !in View(c, o.value).scalars && e !in o.value.scalars;
    BareAfter(c, o.value, once, want.lists);
  }

  lemma SwitchSkipped(c: Client, st: State, want: Slice, o: Obj)
    requires View(c, o) == NOTHING
    ensures EnableScalars(c, st, want, Some(o)) == map[]
  {
    hide DeltaOf, View;
  }

  lemma PairsGained(c: Client, st: State, want: set<Pair>, start: set<Pair>)
    requires Toggles(st)
    ensures PairsAfter(c, st, want, start) == start + want
  {
  }

  lemma BareAfter(c: Client, o: Obj, now: Obj, lists: Lists)
    requires View(c, o) == NOTHING && now == Obj(o.scalars, o.pairs + Pairs(lists))
    requires forall k | k in lists :: KnownList(c, k) && lists[k] != {}
    ensures View(c, now) == NOTHING <==> lists == map[]
    ensures lists == map[] ==> now == o
  {
    if lists == map[] {
      EmptyPairs(lists);
      assert now.pairs == o.pairs;
    } else {
      var k :| k in lists;
      var v :| v in lists[k];
      assert (k, v) in now.pairs;
      ValuesOf(now.pairs, k, v);
      assert k in View(c, now).lists;
    }
  }

  lemma NoBaseScalars(c: Client, st: State, want: Slice, start: Scalars)
    requires !WantsBase(c, want) && st != Exact
    ensures Assign(ScalarsAfter(c, st, want.scalars, start), map[]) == start
  {
  }

  /** After an `enabled` or `disabled` run that meets its goal, the next run is silent. */
  lemma SilentOnceMet(c: Client, st: State, want: Slice, o: Obj)
    requires Runnable(c, st, want, Some(o)) && Toggles(st)
    requires if LooksAbsent(c, Some(o)) then want.lists == map[] else AtGoal(c, st, want, o)
    ensures Run(c, st, false, want, Some(o)) == Done(Some(o), [], false) && After(c, st, want, Some(o)) == o
  {
    if LooksAbsent(c, Some(o)) {
      ToggleOnBare(c, st, want, Some(o));
      GoalReached(c, st, want, Some(o));
      QueueEmptyIff(c, st, want, o);
      EmptyQueueIsSilent(c, st, want, o);
    } else {
      SilentIff(c, st, want, o);
    }
  }

  /** Where one more run can be made, and leads: from an object that shows something, to the
      goal. */
  lemma ToggleStep(c: Client, st: State, want: Slice, o: Option<Obj>)
    requires Runnable(c, st, want, o) && Toggles(st) && !LooksAbsent(c, o)
    ensures var now := After(c, st, want, o);
      && Runnable(c, st, want, Some(now)) && !LooksAbsent(c, Some(now))
      && (AtGoal(c, st, want, now) <==> o.Some? || st == Enabled)
  {
    GoalReached(c, st, want, o);
    StaysTyped(c, st, want, o);
    VisibleAfter(c, st, want, o);
  }

  /** Repeating an `enabled` or `disabled` run, from every start the server accepts it on,
      reaches a fixed point in at most two runs, and every later one is silent. One run is
      enough unless it is `disabled` on a missing object or the object exists but shows
      nothing: creating it, or giving it members, skips the switch. The fixed point meets the
      goal, except that such an object without members to add is never touched. The server
      refuses the run, for good, exactly if the object shows nothing and an attribute of the
      base request is wanted. */
  lemma EnableMachine(c: Client, st: State, want: Slice, o: Option<Obj>)
    requires Setting(c, st, want, o) && Toggles(st)
    ensures Run(c, st, false, want, o) == Failed <==> LooksAbsent(c, o) && WantsBase(c, want)
    ensures Run(c, st, false, want, o) != Failed ==>
      && Runnable(c, st, want, o)
      && var bare := LooksAbsent(c, o);
      var once := After(c, st, want, o);
      && (AtGoal(c, st, want, once) <==> !bare && !(st == Disabled && o.None?))
      && Runnable(c, st, want, Some(once))
      && var twice := After(c, st, want, Some(once));
      && (AtGoal(c, st, want, twice) <==> !(bare && want.lists == map[]))
      && (bare && want.lists == map[] ==> twice == once == o.value)
      && (twice == once <==> (AtGoal(c, st, want, once) || (bare && want.lists == map[])))
      && Run(c, st, false, want, Some(twice)) == Done(Some(twice), [], false)
  {
    RefusedIff(c, st, want, o);
    if Run(c, st, false, want, o) != Failed {
      hide Setting, Run, AtGoal;
      var once := After(c, st, want, o);
      if LooksAbsent(c, o) {
        ToggleOnBare(c, st, want, o);
        StaysTyped(c, st, want, o);
        StillRunnable(c, st, want, o.value, once);
      } else {
        ToggleStep(c, st, want, o);
      }
      if LooksAbsent(c, Some(once)) {
        SilentOnceMet(c, st, want, once);
      } else {
        ToggleStep(c, st, want, Some(once));
        if AtGoal(c, st, want, once) { SilentOnceMet(c, st, want, once); }
      }
      var twice := After(c, st, want, Some(once));
      SilentOnceMet(c, st, want, twice);
    }
  }

  lemma StillRunnable(c: Client, st: State, want: Slice, o: Obj, now: Obj)
    requires Runnable(c, st, want, Some(o)) && LooksAbsent(c, Some(o)) && WellTyped(c, now)
    ensures Runnable(c, st, want, Some(now))
  {
    hide ValidClient, Wanted, WellTyped;
  }
}
