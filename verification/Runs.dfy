/** Goals that do not mention deltas, and when a run is silent. */
module Runs {
  import opened Strings
  import opened IpaModel
  import opened Changes
  import opened Requests
  import opened Effect
  import opened QueueEffect
  import opened Convergence

  // ---------- goals ----------

  ghost predicate ListsMet(c: Client, st: State, want: Slice, o: Obj) {
    var known := set p | p in o.pairs && KnownList(c, p.0);
    if st == Exact then known == Pairs(want.lists) else Pairs(want.lists) <= o.pairs
  }

  /** Base scalars as wanted and, under `exact`, no other known base scalar. */
  ghost predicate ScalarsMet(c: Client, st: State, want: Slice, o: Obj) {
    && (forall k | k in want.scalars && k in c.baseKeys :: k in o.scalars && o.scalars[k] == want.scalars[k])
    && (st == Exact ==> forall k | k in o.scalars && k in c.baseKeys && Known(c, k) :: k in want.scalars)
  }

  ghost predicate EnableMet(c: Client, want: Slice, o: Obj) {
    c.enableKey.Some? && c.enableKey.value in o.scalars && c.enableKey.value in want.scalars
    && o.scalars[c.enableKey.value] == want.scalars[c.enableKey.value]
  }

  predicate Toggles(st: State) { st in {Enabled, Disabled} }

  /** What a run in state `st` (not `absent`) is for. */
  ghost predicate AtGoal(c: Client, st: State, want: Slice, o: Obj) {
    ListsMet(c, st, want, o) && ScalarsMet(c, st, want, o) && (Toggles(st) ==> EnableMet(c, want, o))
  }

  // ---------- when the queue is empty ----------

  lemma {:induction false} RouteQueueEmpty(routes: seq<Route>, d: Delta)
    ensures RouteQueue(routes, false, d) == [] <==>
            forall i | 0 <= i < |routes| :: !RouteActive(routes[i], d)
  {
    if routes != [] {
      var n := |routes| - 1;
      RouteQueueEmpty(routes[..n], d);
      assert forall i | 0 <= i < n :: routes[..n][i] == routes[i];
    }
  }

  /** Nothing of the delta's lists is left out by the base request and the rows together. */
  lemma ListsDelivered(c: Client, d: Delta)
    requires ValidRoutes(c) && Sound(c, d)
    ensures (Restrict(d.listAdd, c.baseKeys) == map[] && Restrict(d.listDel, c.baseKeys) == map[]
             && RouteQueue(c.routes, false, d) == [])
      <==> Pairs(d.listAdd) == {} && Pairs(d.listDel) == {}
  {
    RouteQueueEmpty(c.routes, d);
    if d.listAdd != map[] { SomePair(d.listAdd); SomeDelivery(c, d, ListAdd); } else { EmptyPairs(d.listAdd); }
    if d.listDel != map[] { SomePair(d.listDel); SomeDelivery(c, d, ListDel); } else { EmptyPairs(d.listDel); }
    if d.listAdd == map[] && d.listDel == map[] {
      assert Restrict(d.listAdd, c.baseKeys) == map[] && Restrict(d.listDel, c.baseKeys) == map[];
    }
  }

  lemma SomeDelivery(c: Client, d: Delta, dir: Direction)
    requires ValidRoutes(c) && Sound(c, d) && FromList(d, dir) != map[]
    ensures Restrict(FromList(d, dir), c.baseKeys) != map[] ||
            exists i | 0 <= i < |c.routes| :: RouteActive(c.routes[i], d)
  {
    var m := FromList(d, dir);
    var k :| k in m;
    if k in c.baseKeys {
      assert k in Restrict(m, c.baseKeys);
    } else {
      assert Routed(c, dir, k);
      var i :| 0 <= i < |c.routes| && c.routes[i].from == dir && k in c.routes[i].fields;
      assert RouteActive(c.routes[i], d);
    }
  }

  lemma ChangedItemEmpty(c: Client, d: Delta)
    requires ValidNames(c) && Sound(c, d)
    ensures ChangedItem(c, d) == map[] <==>
      && Restrict(d.listAdd, c.baseKeys) == map[] && Restrict(d.listDel, c.baseKeys) == map[]
      && RestrictScalars(d.scalars, c.baseKeys) == map[]
  {
    hide ChangedItem;
    ChangedItemShape(c, d);
    var item := ChangedItem(c, d);
    if RestrictScalars(d.scalars, c.baseKeys) != map[] {
      var k :| k in RestrictScalars(d.scalars, c.baseKeys);
      assert k in item;
    }
  }

  /** A queue is empty exactly when the delta holds nothing that some request delivers. */
  lemma QueueEmpty(c: Client, st: State, want: Slice, o: Option<Obj>)
    requires Setting(c, st, want, o) && o.Some? && !RemovesObject(st, want)
    ensures var d := DeltaOf(c, st, want, o);
      Queue(c, st, false, want, o) == [] <==>
      && Pairs(d.listAdd) == {} && Pairs(d.listDel) == {}
      && RestrictScalars(d.scalars, c.baseKeys) == map[]
      && !EnableActive(c, st, false, d, LooksAbsent(c, o))
  {
    var d := DeltaOf(c, st, want, o);
    DeltaSound(c, st, want, o);
    ListsDelivered(c, d);
    ChangedItemEmpty(c, d);
  }

  lemma ListsGoalDelta(c: Client, st: State, want: Slice, o: Obj)
    requires st != Absent && forall k | k in want.lists :: KnownList(c, k)
    ensures var d := ComputeChanges(c, st, want, View(c, o));
      ListsMet(c, st, want, o) <==> Pairs(d.listAdd) == {} && Pairs(d.listDel) == {}
  {
    DeltaPairs(c, st, want, View(c, o));
    ViewPairs(c, o);
    KnownPart(c, Pairs(want.lists), o.pairs);
  }

  lemma KnownPart(c: Client, w: set<Pair>, now: set<Pair>)
    requires forall p | p in w :: KnownList(c, p.0)
    ensures var h := set p | p in now && KnownList(c, p.0);
      (w <= now <==> w - h == {}) && (h == w <==> w - h == {} && h - w == {})
  {
    var h := set p | p in now && KnownList(c, p.0);
    assert w <= now <==> w <= h;
    DifferenceEmpty(w, h);
    DifferenceEmpty(h, w);
  }

  lemma DifferenceEmpty<T>(a: set<T>, b: set<T>)
    ensures a - b == {} <==> a <= b
  {
    assert forall p | p in a :: p in a - b || p in b;
  }

  lemma ScalarsGoalDelta(c: Client, st: State, want: Slice, o: Obj)
    requires st != Absent && Wanted(c, st, want) && ValidDefaults(c) && WellTyped(c, o)
    ensures ScalarsMet(c, st, want, o) <==>
      RestrictScalars(ScalarChanges(c, st, want.scalars, View(c, o).scalars), c.baseKeys) == map[]
  {
    var have := View(c, o).scalars;
    var keys := ScalarKeys(c, st, want.scalars, have);
    forall k | k in c.baseKeys
      ensures k in keys <==>
        if k in want.scalars then !(k in o.scalars && o.scalars[k] == want.scalars[k])
        else st == Exact && k in o.scalars && Known(c, k)
    {
      assert k in o.scalars && Known(c, k) ==> k in have && have[k] == o.scalars[k];
    }
    var r := RestrictScalars(ScalarChanges(c, st, want.scalars, have), c.baseKeys);
    assert forall k :: k in r <==> k in keys && k in c.baseKeys;
    if r == map[] {
      assert forall k | k in c.baseKeys :: k !in keys by {
        assert forall k :: k !in r;
      }
    }
  }

  lemma EnableGoalDelta(c: Client, st: State, want: Slice, o: Obj)
    requires Toggles(st) && Wanted(c, st, want) && ValidEnableKey(c)
    ensures EnableMet(c, want, o) <==>
      c.enableKey.value !in ScalarChanges(c, st, want.scalars, View(c, o).scalars)
  {
    var e := c.enableKey.value;
    assert e in View(c, o).scalars <==> e in o.scalars;
  }

  lemma EmptyQueueIsSilent(c: Client, st: State, want: Slice, o: Obj)
    requires Setting(c, st, want, Some(o)) && !RemovesObject(st, want)
    requires Queue(c, st, false, want, Some(o)) == []
    ensures Run(c, st, false, want, Some(o)) == Done(Some(o), [], false)
  {
    var d := DeltaOf(c, st, want, Some(o));
    assert RouteQueue(c.routes, false, d) == [];
    RouteQueueEmpty(c.routes, d);
  }

  /** The queue on an object is empty exactly when the object is at its goal, except that
      the enable key is left alone on an object that looks absent. */
  lemma QueueEmptyIff(c: Client, st: State, want: Slice, o: Obj)
    requires Setting(c, st, want, Some(o)) && st != Absent
    ensures Queue(c, st, false, want, Some(o)) == [] <==>
      && ListsMet(c, st, want, o) && ScalarsMet(c, st, want, o)
      && (Toggles(st) && !LooksAbsent(c, Some(o)) ==> EnableMet(c, want, o))
  {
    QueueEmpty(c, st, want, Some(o));
    ListsGoalDelta(c, st, want, o);
    ScalarsGoalDelta(c, st, want, o);
    if Toggles(st) { EnableGoalDelta(c, st, want, o); }
  }

  /** A run on an object is silent exactly when the object is at its goal: no request after
      `find`, nothing reported, the object as it was. */
  lemma SilentIff(c: Client, st: State, want: Slice, o: Obj)
    requires Setting(c, st, want, Some(o)) && st != Absent
    requires Toggles(st) ==> !LooksAbsent(c, Some(o))
    ensures Run(c, st, false, want, Some(o)) == Done(Some(o), [], false) <==> AtGoal(c, st, want, o)
  {
    hide Setting, Queue;
    QueueEmptyIff(c, st, want, o);
    if Queue(c, st, false, want, Some(o)) == [] {
      EmptyQueueIsSilent(c, st, want, o);
    }
  }
}
