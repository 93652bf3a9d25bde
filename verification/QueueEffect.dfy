/** The whole queue against the object: what one run makes of it. */
module QueueEffect {
  import opened Strings
  import opened IpaModel
  import opened Changes
  import opened IpaServer
  import opened Requests
  import opened Effect

  ghost function DeltaOf(c: Client, st: State, want: Slice, o: Option<Obj>): Delta {
    ComputeChanges(c, st, want, ViewOf(c, o))
  }

  /** What a run starts from: the object, or the one that the add request creates. */
  function Start(c: Client, o: Option<Obj>): Obj {
    match o case Some(obj) => obj case None => NewObj(c)
  }

  ghost function EnableScalars(c: Client, st: State, want: Slice, o: Option<Obj>): Scalars {
    var d := DeltaOf(c, st, want, o);
    if EnableActive(c, st, false, d, ViewOf(c, o) == NOTHING)
    then map[c.enableKey.value := d.scalars[c.enableKey.value]] else map[]
  }

  /** The edit that a run's requests add up to. */
  ghost function WholeEdit(c: Client, st: State, want: Slice, o: Option<Obj>): Edit {
    var d := DeltaOf(c, st, want, o);
    Edit(RestrictScalars(d.scalars, c.baseKeys) + EnableScalars(c, st, want, o),
         Pairs(d.listAdd), Pairs(d.listDel))
  }

  /** The object exists but its canonical reply is empty, so the client asks the server to
      add it again: `is_absent` looks at cleaned attributes, `exists` at the count. */
  ghost predicate Blocked(c: Client, st: State, want: Slice, o: Option<Obj>) {
    o.Some? && ViewOf(c, o) == NOTHING && ChangedItem(c, DeltaOf(c, st, want, o)) != map[]
  }

  lemma EmptyItem(c: Client, d: Delta)
    requires ValidNames(c) && Sound(c, d) && ChangedItem(c, d) == map[]
    ensures BaseEdit(c, d) == Edit(map[], {}, {})
  {
    hide ChangedItem;
    ChangedItemShape(c, d);
    assert Restrict(d.listAdd, c.baseKeys) == map[];
    assert Restrict(d.listDel, c.baseKeys) == map[];
    assert RestrictScalars(d.scalars, c.baseKeys) == map[];
  }

  lemma NoEdit(o: Obj)
    ensures Apply(o, Edit(map[], {}, {})) == o
  {
    assert Assign(o.scalars, map[]) == o.scalars;
  }

  /** The first request: refused for an object that looks absent but exists, otherwise the
      base part of the delta, on the object or on a new one. */
  lemma BaseEffect(c: Client, o: Option<Obj>, d: Delta, isAbsent: bool)
    requires ValidNames(c) && Sound(c, d) && (o.None? ==> isAbsent)
    ensures ServeAll(c, o, BaseQueue(c, d, isAbsent, o.Some?)) ==
      if isAbsent && o.Some? && ChangedItem(c, d) != map[] then Refused
      else Accepted(Some(Apply(Start(c, o), BaseEdit(c, d))))
  {
    hide ChangedItem;
    if ChangedItem(c, d) == map[] && o.Some? {
      EmptyItem(c, d);
      NoEdit(o.value);
    } else {
      BaseReadBack(c, d, isAbsent);
      ServeOne(c, o, BaseRequest(c, d, isAbsent));
    }
  }

  lemma EnableEffect(c: Client, st: State, want: Slice, o: Option<Obj>, obj: Obj)
    requires Wanted(c, st, want)
    ensures var d := DeltaOf(c, st, want, o);
      ServeAll(c, Some(obj), EnableQueue(c, st, false, d, ViewOf(c, o) == NOTHING)) ==
      Accepted(Some(Apply(obj, Edit(EnableScalars(c, st, want, o), {}, {}))))
  {
    hide View, MemberPairs, ItemEdit, ScalarKeys;
    var d := DeltaOf(c, st, want, o);
    if EnableActive(c, st, false, d, ViewOf(c, o) == NOTHING) {
      var r := EnableRequest(c, d);
      ServeOne(c, Some(obj), r);
      assert d.scalars[c.enableKey.value] == want.scalars[c.enableKey.value];
      assert EditOf(c, r).scalars == EnableScalars(c, st, want, o);
    } else {
      NoEdit(obj);
    }
  }

  /** Every list attribute goes with the base request or with a row, not with both. */
  lemma AllCarried(c: Client, dir: Direction, m: Lists)
    requires ValidRoutes(c) && forall k | k in m :: KnownList(c, k)
    ensures Pairs(m) == Pairs(Restrict(m, c.baseKeys)) + CarriedPairs(c.routes, dir, Pairs(m))
  {
    forall p | p in Pairs(m) && p.0 !in c.baseKeys ensures Carried(c.routes, dir, p.0) {
      assert Routed(c, dir, p.0);
    }
  }

  lemma ScalarsApart(c: Client, st: State, want: Slice, o: Option<Obj>)
    requires ValidEnableKey(c)
    ensures RestrictScalars(DeltaOf(c, st, want, o).scalars, c.baseKeys).Keys !! EnableScalars(c, st, want, o).Keys
  {
  }

  lemma StepsAddUp(c: Client, st: State, want: Slice, o: Option<Obj>)
    requires ValidRoutes(c) && ValidEnableKey(c)
    requires Sound(c, DeltaOf(c, st, want, o))
    ensures var d := DeltaOf(c, st, want, o);
      var o1 := Apply(Start(c, o), BaseEdit(c, d));
      var o2 := Apply(o1, Edit(EnableScalars(c, st, want, o), {}, {}));
      AfterRoutes(c.routes, d, o2) == Apply(Start(c, o), WholeEdit(c, st, want, o))
  {
    hide ComputeChanges, CarriedPairs, Restrict, RestrictScalars, EnableScalars, ValidRoutes;
    var d := DeltaOf(c, st, want, o);
    AllCarried(c, ListAdd, d.listAdd);
    AllCarried(c, ListDel, d.listDel);
    ScalarsApart(c, st, want, o);
    var start := Start(c, o);
    var e := WholeEdit(c, st, want, o);
    var o1 := Apply(start, BaseEdit(c, d));
    var o2 := Apply(o1, Edit(EnableScalars(c, st, want, o), {}, {}));
    PairsAddUp(start.pairs, Pairs(Restrict(d.listAdd, c.baseKeys)), CarriedPairs(c.routes, ListAdd, Pairs(d.listAdd)),
               Pairs(Restrict(d.listDel, c.baseKeys)), CarriedPairs(c.routes, ListDel, Pairs(d.listDel)));
    TwoAssigns(start.scalars, RestrictScalars(d.scalars, c.baseKeys), EnableScalars(c, st, want, o));
  }

  lemma PairsAddUp(s: set<Pair>, a1: set<Pair>, a2: set<Pair>, d1: set<Pair>, d2: set<Pair>)
    requires a1 + a2 !! d1 + d2
    ensures s + a1 - d1 + {} - {} + a2 - d2 == s + (a1 + a2) - (d1 + d2)
  {
  }

  lemma TwoAssigns(s: Scalars, a: Scalars, b: Scalars)
    requires a.Keys !! b.Keys
    ensures Assign(Assign(s, a), b) == Assign(s, a + b)
  {
  }

  lemma ClientParts(c: Client)
    requires ValidClient(c)
    ensures ValidNames(c) && ValidDefaults(c) && ValidEnableKey(c) && ValidRoutes(c) && AllUnderstood(c.routes)
  {
  }

  /** One run, outside check mode and unless it removes the object: either the server
      refuses the add of an object that only looks absent, and nothing has changed, or the
      whole delta has been carried out on the object (on a new one if there was none). */
  lemma RunEffect(c: Client, st: State, want: Slice, o: Option<Obj>)
    requires ValidClient(c) && Wanted(c, st, want) && (o.Some? ==> WellTyped(c, o.value))
    requires !RemovesObject(st, want)
    ensures ServeAll(c, o, Queue(c, st, false, want, o)) ==
      if Blocked(c, st, want, o) then Refused
      else Accepted(Some(Apply(Start(c, o), WholeEdit(c, st, want, o))))
  {
    var d := DeltaOf(c, st, want, o);
    var isAbsent := ViewOf(c, o) == NOTHING;
    var b := BaseQueue(c, d, isAbsent, o.Some?);
    var e := EnableQueue(c, st, false, d, isAbsent);
    var r := RouteQueue(c.routes, false, d);
    hide ValidClient, Wanted, WellTyped, Sound, ComputeChanges, ChangedItem, AllUnderstood, ValidNames, ValidRoutes, ValidEnableKey;
    ClientParts(c);
    DeltaSound(c, st, want, o);
    BaseEffect(c, o, d, isAbsent);
    ServeAppend(c, o, b, e);
    ServeAppend(c, o, b + e, r);
    if !Blocked(c, st, want, o) {
      var o1 := Apply(Start(c, o), BaseEdit(c, d));
      EnableEffect(c, st, want, o, o1);
      RoutesEffect(c, c.routes, d, Apply(o1, Edit(EnableScalars(c, st, want, o), {}, {})));
      StepsAddUp(c, st, want, o);
    }
  }
}
