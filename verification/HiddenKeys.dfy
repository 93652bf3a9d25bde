/** `enabled` and `disabled` runs on a reply that leaves the enable key out. */
module HiddenKeys {
  import opened Strings
  import opened IpaModel
  import opened Changes
  import opened IpaServer
  import opened Requests
  import opened Effect
  import opened QueueEffect
  import opened Convergence
  import opened Runs
  import opened Delivery

  /** The object as such a reply shows it. */
  function Hidden(c: Client, o: Obj): Obj {
    Obj(if c.enableKey.Some? then o.scalars - {c.enableKey.value} else o.scalars, o.pairs)
  }

  function SwitchRequest(st: State): Request {
    Request(if st == Enabled then Enable else Disable, {}, map[])
  }

  /** Every run posts the switch, except on an object that then shows nothing. So at its goal,
      where a run is silent if the reply carries the key (`QueueEmptyIff`), the object is switched
      again by each run, to what it is. */
  lemma SwitchedForEver(c: Client, st: State, want: Slice, o: Obj)
    requires Setting(c, st, want, Some(o)) && Toggles(st)
    ensures var q := Queue(c, st, false, want, Some(Hidden(c, o)));
      && (SwitchRequest(st) in q <==> !LooksAbsent(c, Some(Hidden(c, o))))
      && (AtGoal(c, st, want, o) ==>
            && q == (if LooksAbsent(c, Some(Hidden(c, o))) then [] else [SwitchRequest(st)])
            && ServeAll(c, Some(o), q) == Accepted(Some(o)))
  {
    hide Setting, Queue, Hidden, SwitchRequest, ServeAll, AtGoal, LooksAbsent, DeltaOf, EnableQueue, BaseQueue, RouteQueue, View;
    SettingGives(c, st, want, Some(o));
    hide ValidNames, ValidDefaults, ValidEnableKey, ValidRoutes, AllUnderstood, Sound, Wanted, WellTyped;
    HiddenSetting(c, st, want, o);
    Parts(c, st, want, Some(Hidden(c, o)));
    SwitchIs(c, st, want, o);
    NoOtherSwitch(c, st, want, o);
    if AtGoal(c, st, want, o) {
      NothingElseAsked(c, st, want, o);
      SwitchedToItself(c, st, want, o);
    }
  }

  lemma HiddenSetting(c: Client, st: State, want: Slice, o: Obj)
    requires Setting(c, st, want, Some(o))
    ensures Setting(c, st, want, Some(Hidden(c, o)))
  {
    hide ValidClient, Wanted;
  }

  lemma Parts(c: Client, st: State, want: Slice, o: Option<Obj>)
    requires Toggles(st) && o.Some?
    ensures var d := DeltaOf(c, st, want, o);
      var bare := LooksAbsent(c, o);
      Queue(c, st, false, want, o) ==
        BaseQueue(c, d, bare, true) + EnableQueue(c, st, false, d, bare) + RouteQueue(c.routes, false, d)
  {
    hide BaseQueue, EnableQueue, RouteQueue;
  }

  lemma SwitchIs(c: Client, st: State, want: Slice, o: Obj)
    requires Wanted(c, st, want) && ValidEnableKey(c) && Toggles(st)
    ensures var bare := LooksAbsent(c, Some(Hidden(c, o)));
      EnableQueue(c, st, false, DeltaOf(c, st, want, Some(Hidden(c, o))), bare) == if bare then [] else [SwitchRequest(st)]
  {
    var e := c.enableKey.value;
    var d := DeltaOf(c, st, want, Some(Hidden(c, o)));
    assert e !in View(c, Hidden(c, o)).scalars;
    assert e in ScalarKeys(c, st, want.scalars, View(c, Hidden(c, o)).scalars);
    assert d.scalars[e] == want.scalars[e];
  }

  lemma NoOtherSwitch(c: Client, st: State, want: Slice, o: Obj)
    requires AllUnderstood(c.routes)
    ensures var d := DeltaOf(c, st, want, Some(Hidden(c, o)));
      var bare := LooksAbsent(c, Some(Hidden(c, o)));
      SwitchRequest(st) !in BaseQueue(c, d, bare, true) && SwitchRequest(st) !in RouteQueue(c.routes, false, d)
  {
    hide DeltaOf, LooksAbsent, ChangedItem;
    var d := DeltaOf(c, st, want, Some(Hidden(c, o)));
    RouteQueueWrites(c, c.routes, d);
  }

  lemma NothingElseAsked(c: Client, st: State, want: Slice, o: Obj)
    requires Setting(c, st, want, Some(o)) && Toggles(st) && AtGoal(c, st, want, o)
    ensures var d := DeltaOf(c, st, want, Some(Hidden(c, o)));
      BaseQueue(c, d, LooksAbsent(c, Some(Hidden(c, o))), true) == [] && RouteQueue(c.routes, false, d) == []
  {
    hide ChangedItem, Restrict, RestrictScalars, View, RouteQueue;
    var seen := Hidden(c, o);
    var d := DeltaOf(c, st, want, Some(seen));
    SettingGives(c, st, want, Some(o));
    HiddenSetting(c, st, want, o);
    SettingGives(c, st, want, Some(seen));
    ListsGoalDelta(c, st, want, seen);
    ScalarsGoalDelta(c, st, want, seen);
    ListsDelivered(c, d);
    ChangedItemEmpty(c, d);
  }

  lemma SwitchedToItself(c: Client, st: State, want: Slice, o: Obj)
    requires Wanted(c, st, want) && Toggles(st) && AtGoal(c, st, want, o)
    ensures ServeAll(c, Some(o), [SwitchRequest(st)]) == Accepted(Some(o))
    ensures ServeAll(c, Some(o), []) == Accepted(Some(o))
  {
    ServeOne(c, Some(o), SwitchRequest(st));
    assert Assign(o.scalars, EditOf(c, SwitchRequest(st)).scalars) == o.scalars;
  }
}
