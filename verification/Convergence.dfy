/** When the server refuses a run, and the object that a run outside `absent` leaves. */
module Convergence {
  import opened Strings
  import opened IpaModel
  import opened Changes
  import opened IpaServer
  import opened Requests
  import opened Effect
  import opened QueueEffect

  ghost predicate Setting(c: Client, st: State, want: Slice, o: Option<Obj>) {
    ValidClient(c) && Wanted(c, st, want) && (o.Some? ==> WellTyped(c, o.value))
  }

  lemma SettingGives(c: Client, st: State, want: Slice, o: Option<Obj>)
    requires Setting(c, st, want, o)
    ensures ValidNames(c) && ValidDefaults(c) && ValidEnableKey(c) && ValidRoutes(c) && AllUnderstood(c.routes)
    ensures Sound(c, DeltaOf(c, st, want, o))
    ensures Wanted(c, st, want) && (o.Some? ==> WellTyped(c, o.value))
  {
    DeltaSound(c, st, want, o);
  }

  /** The parameters name an attribute that add and mod requests carry. */
  ghost predicate WantsBase(c: Client, want: Slice) {
    exists k | k in c.baseKeys :: k in want.scalars || k in want.lists
  }

  /** The object is there, but without any attribute the client knows. */
  predicate LooksAbsent(c: Client, o: Option<Obj>) {
    o.Some? && View(c, o.value) == NOTHING
  }

  lemma SomePair(m: Lists)
    requires m != map[] && forall k | k in m :: m[k] != {}
    ensures Pairs(m) != {}
  {
    var k :| k in m;
    var v :| v in m[k];
    assert (k, v) in Pairs(m);
  }

  // ---------- when a run is refused ----------

  /** A run is refused exactly when it has an attribute for an object that looks absent;
      `absent` never is. */
  lemma RefusedIff(c: Client, st: State, want: Slice, o: Option<Obj>)
    requires Setting(c, st, want, o)
    ensures Run(c, st, false, want, o) == Failed <==>
      st != Absent && LooksAbsent(c, o) && WantsBase(c, want)
  {
    hide ChangedItem, RestrictScalars;
    if RemovesObject(st, want) {
      if ViewOf(c, o) != NOTHING { ServeOne(c, o, REM_REQUEST); }
    } else {
      RunEffect(c, st, want, o);
      if LooksAbsent(c, o) {
        BlockedWhenBase(c, st, want, o);
      }
    }
  }

  lemma BlockedWhenBase(c: Client, st: State, want: Slice, o: Option<Obj>)
    requires Setting(c, st, want, o) && LooksAbsent(c, o)
    ensures Blocked(c, st, want, o) <==> st != Absent && WantsBase(c, want)
  {
    hide ChangedItem;
    var d := DeltaOf(c, st, want, o);
    DeltaSound(c, st, want, o);
    ItemOfNothing(c, st, want);
  }

  /** Against nothing, the delta is everything wanted. */
  lemma ItemOfNothing(c: Client, st: State, want: Slice)
    requires ValidNames(c) && Sound(c, ComputeChanges(c, st, want, NOTHING))
    requires forall k | k in want.scalars :: want.scalars[k] != Null
    requires forall k | k in want.lists :: want.lists[k] != {}
    ensures ChangedItem(c, ComputeChanges(c, st, want, NOTHING)) != map[] <==> st != Absent && WantsBase(c, want)
  {
    hide ChangedItem;
    var d := ComputeChanges(c, st, want, NOTHING);
    var item := ChangedItem(c, d);
    ChangedItemShape(c, d);
    assert d.listDel == map[];
    if st == Absent {
      assert d.listAdd == map[] && d.scalars == map[];
    } else {
      assert d.scalars.Keys == want.scalars.Keys && d.listAdd.Keys == want.lists.Keys;
      if WantsBase(c, want) {
        var k :| k in c.baseKeys && (k in want.scalars || k in want.lists);
        assert k in want.lists ==> k in Restrict(d.listAdd, c.baseKeys);
        assert k in want.scalars ==> k in item;
      } else {
        assert Restrict(d.listAdd, c.baseKeys) == map[];
        assert Restrict(d.listDel, c.baseKeys) == map[];
      }
    }
  }

  // ---------- what one run reaches ----------

  /** Base scalars as wanted; under `exact` no other base scalar the client knows. */
  function ScalarsAfter(c: Client, st: State, want: Scalars, start: Scalars): Scalars {
    start
    - (if st == Exact then set k | k in start && k in c.baseKeys && Known(c, k) && k !in want else {})
    + RestrictScalars(want, c.baseKeys)
  }

  /** The scalars after a run outside `absent`, enable key aside. */
  lemma ScalarsReached(c: Client, st: State, want: Slice, o: Option<Obj>)
    requires Setting(c, st, want, o) && st != Absent
    ensures Assign(Start(c, o).scalars, RestrictScalars(DeltaOf(c, st, want, o).scalars, c.baseKeys)) ==
            ScalarsAfter(c, st, want.scalars, Start(c, o).scalars)
  {
    ScalarStep(c, st, want.scalars, ViewOf(c, o).scalars, Start(c, o).scalars);
  }

  lemma ScalarStep(c: Client, st: State, want: Scalars, have: Scalars, start: Scalars)
    requires st != Absent && (st == Exact ==> c.defaults.Keys <= want.Keys)
    requires forall k | k in want :: want[k] != Null
    requires forall k | k in have :: k in start && have[k] == start[k] && Known(c, k)
    requires forall k | k in start && k in c.baseKeys && Known(c, k) :: k in have
    requires forall k | k in want && k in c.baseKeys :: Known(c, k)
    ensures Assign(start, RestrictScalars(ScalarChanges(c, st, want, have), c.baseKeys)) ==
            ScalarsAfter(c, st, want, start)
  {
    var d := RestrictScalars(ScalarChanges(c, st, want, have), c.baseKeys);
    var a, b := Assign(start, d), ScalarsAfter(c, st, want, start);
    forall k ensures (k in a <==> k in b) && (k in a ==> a[k] == b[k]) {
      ScalarAt(c, st, want, have, start, k);
    }
  }

  lemma ScalarAt(c: Client, st: State, want: Scalars, have: Scalars, start: Scalars, k: string)
    requires st != Absent && (st == Exact ==> c.defaults.Keys <= want.Keys)
    requires k in want ==> want[k] != Null
    requires k in have ==> k in start && have[k] == start[k] && Known(c, k)
    requires k in start && k in c.baseKeys && Known(c, k) ==> k in have
    requires k in want && k in c.baseKeys ==> Known(c, k)
    ensures var a := Assign(start, RestrictScalars(ScalarChanges(c, st, want, have), c.baseKeys));
      var b := ScalarsAfter(c, st, want, start);
      (k in a <==> k in b) && (k in a ==> a[k] == b[k])
  {
    var d := ScalarChanges(c, st, want, have);
    assert k in d <==> k in ScalarKeys(c, st, want, have);
    if k in d && k !in want {
      assert k !in c.defaults && d[k] == Null;
    }
  }

  /** The values after a run. */
  function PairsAfter(c: Client, st: State, want: set<Pair>, start: set<Pair>): set<Pair> {
    match st
    case Exact => start - (set p | p in start && KnownList(c, p.0)) + want
    case Absent => start - want
    case _ => start + want
  }

  /** The pairs after a run, state by state. */
  lemma PairsReached(c: Client, st: State, want: Slice, o: Option<Obj>)
    requires Setting(c, st, want, o)
    ensures Apply(Start(c, o), WholeEdit(c, st, want, o)).pairs ==
            PairsAfter(c, st, Pairs(want.lists), Start(c, o).pairs)
  {
    var have := ViewOf(c, o);
    DeltaPairs(c, st, want, have);
    if o.Some? { ViewPairs(c, o.value); } else { EmptyPairs(have.lists); }
    PairsStep(c, st, Pairs(want.lists), Pairs(have.lists), Start(c, o).pairs);
  }

  lemma PairsStep(c: Client, st: State, want: set<Pair>, have: set<Pair>, start: set<Pair>)
    requires have == set p | p in start && KnownList(c, p.0)
    requires forall p | p in want :: KnownList(c, p.0)
    ensures PairsAfter(c, st, want, start) ==
      start + (if st != Absent then want - have else {})
            - (if st == Exact then have - want else if st == Absent then want * have else {})
  {
  }

  /** What a run reaches outside `absent`, unless it is refused: the wanted values and base
      scalars are there, under `exact` no other ones, the enable key is as the state asks
      (on an object that existed), and nothing else has changed. On a missing object this
      is said of the object as created. */
  lemma RunReaches(c: Client, st: State, want: Slice, o: Option<Obj>)
    requires Setting(c, st, want, o) && st != Absent
    requires !(LooksAbsent(c, o) && WantsBase(c, want))
    ensures Run(c, st, false, want, o).Done? && Run(c, st, false, want, o).obj ==
      Some(Obj(Assign(ScalarsAfter(c, st, want.scalars, Start(c, o).scalars), EnableScalars(c, st, want, o)),
               PairsAfter(c, st, Pairs(want.lists), Start(c, o).pairs)))
  {
    hide ChangedItem;
    RefusedIff(c, st, want, o);
    RunEffect(c, st, want, o);
    PairsReached(c, st, want, o);
    ScalarsReached(c, st, want, o);
    ScalarsApart(c, st, want, o);
    TwoAssigns(Start(c, o).scalars, RestrictScalars(DeltaOf(c, st, want, o).scalars, c.baseKeys),
               EnableScalars(c, st, want, o));
  }
}
