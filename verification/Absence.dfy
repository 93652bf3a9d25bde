/** State `absent`: what is removed, when a run queues nothing, and the run after it. */
module Absence {
  import opened Strings
  import opened IpaModel
  import opened Changes
  import opened IpaServer
  import opened Requests
  import opened Effect
  import opened QueueEffect
  import opened Convergence
  import opened Runs
  import opened Theorems

  // ---------- absent, without attributes ----------

  /** `absent` without attributes removes the object, exactly unless the object looks absent
      already although it exists; a missing object is left missing. */
  lemma AbsentRemoves(c: Client, o: Option<Obj>)
    requires Setting(c, Absent, NOTHING, o)
    ensures Run(c, Absent, false, NOTHING, o) ==
      if LooksAbsent(c, o) || o.None? then Done(o, [], false) else Done(None, [REM_REQUEST], true)
  {
    if !LooksAbsent(c, o) && o.Some? {
      ServeOne(c, o, REM_REQUEST);
    }
  }

  // ---------- absent, with attributes ----------

  /** A named base scalar that the object holds with the named value. */
  predicate Matches(c: Client, want: Scalars, have: Scalars, k: string) {
    k in c.baseKeys && k in want && k in have && have[k] == want[k]
  }

  /** Matching scalars go back to their default, or away where there is none. */
  function ScalarsWithout(c: Client, want: Scalars, start: Scalars): Scalars {
    map k | k in start && (Matches(c, want, start, k) ==> Default(c, k) != Null) ::
      if Matches(c, want, start, k) then Default(c, k) else start[k]
  }

  /** The value named for removal is the parameter's own default. */
  ghost predicate ResetsToItself(c: Client, want: Scalars, have: Scalars) {
    exists k | k in want :: Matches(c, want, have, k) && Default(c, k) == want[k]
  }

  lemma AbsentScalarStep(c: Client, want: Slice, o: Option<Obj>)
    requires Wanted(c, Absent, want) && ValidEnableKey(c)
    ensures var d := RestrictScalars(DeltaOf(c, Absent, want, o).scalars, c.baseKeys);
      && (forall k :: k in d <==> Matches(c, want.scalars, Start(c, o).scalars, k))
      && (forall k | k in d :: d[k] == Default(c, k))
  {
    var start, have := Start(c, o).scalars, ViewOf(c, o).scalars;
    forall k | k in c.baseKeys && k in want.scalars
      ensures k in have <==> k in start
      ensures k in start ==> have[k] == start[k]
    {
      assert KnownScalar(c, k);
    }
  }

  lemma AbsentAssign(c: Client, want: Slice, o: Option<Obj>)
    requires Wanted(c, Absent, want) && ValidEnableKey(c)
    ensures Assign(Start(c, o).scalars, RestrictScalars(DeltaOf(c, Absent, want, o).scalars, c.baseKeys)) ==
            ScalarsWithout(c, want.scalars, Start(c, o).scalars)
  {
    AbsentScalarStep(c, want, o);
  }

  /** `absent` with attributes takes the named values and matching scalars away and leaves
      the rest. On a missing object it creates one: the code falls through to an add. */
  lemma AbsentAttributes(c: Client, want: Slice, o: Option<Obj>)
    requires Setting(c, Absent, want, o) && want != NOTHING
    ensures Run(c, Absent, false, want, o).Done?
    ensures Run(c, Absent, false, want, o).obj ==
      Some(Obj(ScalarsWithout(c, want.scalars, Start(c, o).scalars), Start(c, o).pairs - Pairs(want.lists)))
    ensures o.None? ==> Run(c, Absent, false, want, o).obj == Some(NewObj(c))
  {
    SettingGives(c, Absent, want, o);
    hide Setting, ValidRoutes, ValidNames, AllUnderstood, Sound, WellTyped, Wanted, ValidDefaults, ComputeChanges;
    hide ScalarsWithout, RestrictScalars, Queue, ServeAll, View, Blocked, Assign, PairsAfter;
    RefusedIff(c, Absent, want, o);
    RunEffect(c, Absent, want, o);
    AbsentEdit(c, want, o);
    hide WholeEdit, Apply;
    if o.None? {
      StartPairs(Pairs(want.lists));
      NewObjUnmatched(c, want.scalars);
    }
  }

  /** The scalars among them, one by one: base scalars that have the value named go back to their
      default, or away if they have none; all others stay. */
  lemma AbsentLeaves(c: Client, want: Slice, o: Option<Obj>, k: string)
    requires Setting(c, Absent, want, o) && want != NOTHING
    ensures Run(c, Absent, false, want, o).Done? && Run(c, Absent, false, want, o).obj.Some?
    ensures var now, start := Run(c, Absent, false, want, o).obj.value.scalars, Start(c, o).scalars;
      if k in start && k in c.baseKeys && k in want.scalars && want.scalars[k] == start[k]
      then (k in now <==> k in c.defaults) && (k in now ==> now[k] == c.defaults[k])
      else (k in now <==> k in start) && (k in now ==> now[k] == start[k])
  {
    hide Run, Setting;
    AbsentAttributes(c, want, o);
    DefaultsNotNull(c, want, o);
  }

  lemma DefaultsNotNull(c: Client, want: Slice, o: Option<Obj>)
    requires Setting(c, Absent, want, o)
    ensures forall k | k in c.defaults :: c.defaults[k] != Null
  {
    hide ValidRoutes, ValidNames, ValidEnableKey, Wanted, WellTyped;
  }

  lemma AbsentEdit(c: Client, want: Slice, o: Option<Obj>)
    requires Setting(c, Absent, want, o)
    ensures Apply(Start(c, o), WholeEdit(c, Absent, want, o)) ==
      Obj(ScalarsWithout(c, want.scalars, Start(c, o).scalars), Start(c, o).pairs - Pairs(want.lists))
  {
    SettingGives(c, Absent, want, o);
    hide Setting, ValidRoutes, ValidNames, AllUnderstood, Sound, WellTyped, Wanted, ValidDefaults, ComputeChanges;
    hide ScalarsWithout, RestrictScalars, View, Assign, DeltaOf, EnableScalars, Start, Pairs, WholeEdit;
    PairsReached(c, Absent, want, o);
    AbsentScalars(c, want, o);
  }

  lemma AbsentScalars(c: Client, want: Slice, o: Option<Obj>)
    requires Wanted(c, Absent, want) && ValidEnableKey(c)
    ensures Assign(Start(c, o).scalars, WholeEdit(c, Absent, want, o).scalars) ==
            ScalarsWithout(c, want.scalars, Start(c, o).scalars)
  {
    hide ScalarsWithout, RestrictScalars, Assign, DeltaOf, EnableScalars, Start, Pairs, Wanted, ValidEnableKey;
    AbsentAssign(c, want, o);
    AbsentNoEnable(c, want, o);
    var d := DeltaOf(c, Absent, want, o);
    assert RestrictScalars(d.scalars, c.baseKeys) + map[] == RestrictScalars(d.scalars, c.baseKeys);
  }

  lemma AbsentNoEnable(c: Client, want: Slice, o: Option<Obj>)
    ensures EnableScalars(c, Absent, want, o) == map[]
  {
  }

  lemma StartPairs(w: set<Pair>)
    ensures {} - w == {}
  {
  }

  lemma NewObjUnmatched(c: Client, want: Scalars)
    requires ValidEnableKey(c)
    ensures ScalarsWithout(c, want, NewObj(c).scalars) == NewObj(c).scalars
    ensures !ResetsToItself(c, want, NewObj(c).scalars)
  {
  }

  /** An `absent` run with attributes queues nothing exactly when the object has none of
      the named values and no matching scalar. */
  lemma AbsentQueueEmptyIff(c: Client, want: Slice, o: Obj)
    requires Setting(c, Absent, want, Some(o)) && want != NOTHING
    ensures Queue(c, Absent, false, want, Some(o)) == [] <==>
      && Pairs(want.lists) !! o.pairs
      && forall k | k in want.scalars :: !Matches(c, want.scalars, o.scalars, k)
  {
    SettingGives(c, Absent, want, Some(o));
    WantedFacts(c, Absent, want);
    hide Setting, ValidRoutes, ValidNames, AllUnderstood, Sound, WellTyped, Wanted, ValidDefaults, ValidEnableKey;
    hide Queue, Matches, RestrictScalars;
    QueueEmpty(c, Absent, want, Some(o));
    DeltaPairs(c, Absent, want, View(c, o));
    ViewPairs(c, o);
    AbsentScalarStep(c, want, Some(o));
    NamedApart(c, Pairs(want.lists), o.pairs);
    var d := RestrictScalars(DeltaOf(c, Absent, want, Some(o)).scalars, c.baseKeys);
    assert d == map[] <==> forall k :: k !in d;
    MatchesNamed(c, want.scalars, o.scalars);
  }

  lemma MatchesNamed(c: Client, want: Scalars, have: Scalars)
    ensures forall k | Matches(c, want, have, k) :: k in want
  {
  }

  lemma NamedApart(c: Client, w: set<Pair>, now: set<Pair>)
    requires forall p | p in w :: KnownList(c, p.0)
    ensures w * (set p | p in now && KnownList(c, p.0)) == {} <==> w !! now
  {
    assert forall p | p in w && p in now :: p in w * (set p | p in now && KnownList(c, p.0));
  }

  lemma AbsentStaysTyped(c: Client, want: Slice, o: Option<Obj>)
    requires Setting(c, Absent, want, o) && want != NOTHING
    ensures WellTyped(c, Obj(ScalarsWithout(c, want.scalars, Start(c, o).scalars),
                             Start(c, o).pairs - Pairs(want.lists)))
  {
    assert WellTyped(c, Start(c, o));
  }

  lemma MatchesAgain(c: Client, want: Scalars, start: Scalars)
    requires forall k | k in want :: want[k] != Null
    ensures forall k | k in want :: Matches(c, want, ScalarsWithout(c, want, start), k) <==>
      Matches(c, want, start, k) && Default(c, k) == want[k]
  {
  }

  /** Running `absent` with attributes twice: the second run is silent exactly unless a
      scalar was named with its own default as value. */
  lemma AbsentSecondRun(c: Client, want: Slice, o: Option<Obj>)
    requires Setting(c, Absent, want, o) && want != NOTHING
    ensures Run(c, Absent, false, want, o).Done?
    ensures var now := Run(c, Absent, false, want, o).obj;
      && now.Some?
      && (Run(c, Absent, false, want, now) == Done(now, [], false) <==>
            !ResetsToItself(c, want.scalars, Start(c, o).scalars))
  {
    AbsentAttributes(c, want, o);
    AbsentStaysTyped(c, want, o);
    SettingGives(c, Absent, want, o);
    WantedFacts(c, Absent, want);
    hide ValidRoutes, ValidNames, AllUnderstood, Sound, WellTyped, Wanted, ValidDefaults, ValidEnableKey, ValidClient, Queue, Run;
    var now := Run(c, Absent, false, want, o).obj.value;
    AbsentQueueEmptyIff(c, want, now);
    MatchesAgain(c, want.scalars, Start(c, o).scalars);
    if Queue(c, Absent, false, want, Some(now)) == [] {
      EmptyQueueIsSilent(c, Absent, want, now);
    }
  }
}
