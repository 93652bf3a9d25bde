/** What posting a queue does to the object: the requests' encodings, undone by the server's
    reading of them, add up to the delta. */
module Effect {
  import opened Strings
  import opened IpaModel
  import opened Changes
  import opened Rewrite
  import opened IpaServer
  import opened Requests

  /** Deltas of canonical parameters and well-typed objects. */
  ghost predicate Sound(c: Client, d: Delta) {
    && StringLists(c, d.listAdd) && StringLists(c, d.listDel)
    && (forall k | k in d.scalars && k in c.baseKeys :: KnownScalar(c, k))
    && Pairs(d.listAdd) !! Pairs(d.listDel)
  }

  lemma DeltaSound(c: Client, st: State, want: Slice, o: Option<Obj>)
    requires Wanted(c, st, want) && ValidDefaults(c) && (o.Some? ==> WellTyped(c, o.value))
    ensures Sound(c, ComputeChanges(c, st, want, ViewOf(c, o)))
  {
    if o.Some? { ViewTyped(c, o.value); }
    SoundBetween(c, st, want, ViewOf(c, o));
  }

  ghost predicate StringLists(c: Client, m: Lists) {
    forall k | k in m :: KnownList(c, k) && m[k] != {} && forall v | v in m[k] :: v.Str?
  }

  lemma ViewTyped(c: Client, o: Obj)
    requires WellTyped(c, o)
    ensures StringLists(c, View(c, o).lists)
  {
    forall k, v | k in View(c, o).lists && v in View(c, o).lists[k] ensures v.Str? {
      ValuesOf(o.pairs, k, v);
      assert (k, v) in o.pairs;
    }
  }

  lemma SoundBetween(c: Client, st: State, want: Slice, have: Slice)
    requires Wanted(c, st, want) && ValidDefaults(c)
    requires StringLists(c, have.lists) && forall k | k in have.scalars :: KnownScalar(c, k)
    ensures Sound(c, ComputeChanges(c, st, want, have))
  {
    var d := ComputeChanges(c, st, want, have);
    DeltaPairs(c, st, want, have);
    assert StringLists(c, want.lists);
    assert StringLists(c, d.listAdd) && StringLists(c, d.listDel);
  }

  // ---------- one request ----------

  ghost function BaseEdit(c: Client, d: Delta): Edit {
    Edit(RestrictScalars(d.scalars, c.baseKeys),
         Pairs(Restrict(d.listAdd, c.baseKeys)), Pairs(Restrict(d.listDel, c.baseKeys)))
  }

  /** The lines under one attribute key are read back as the restricted list changes. */
  lemma LinesReadBack(c: Client, before: Item, k: string, m: Lists)
    requires AttrKey(k) && Writable(m)
    requires if m == map[] then k !in before else k in before && before[k] == Grouped(m)
    ensures LinePairs(Rewritten(before), k) == Pairs(m)
  {
    if m != map[] {
      assert Rewritten(before)[k] == Lines(Listing(LinesOf(m)));
      RewriteLossless(m);
    }
  }

  lemma ChangedItemShape(c: Client, d: Delta)
    requires ValidNames(c) && Sound(c, d)
    ensures var before := ChangedItem(c, d);
      var adds, dels := Restrict(d.listAdd, c.baseKeys), Restrict(d.listDel, c.baseKeys);
      && ALL !in before
      && (if adds == map[] then ADDATTR !in before else ADDATTR in before && before[ADDATTR] == Grouped(adds))
      && (if dels == map[] then DELATTR !in before else DELATTR in before && before[DELATTR] == Grouped(dels))
      && (forall k | k in d.scalars && k in c.baseKeys :: !AttrKey(k) && k in before && before[k] == Val(d.scalars[k]))
      && (forall k | k in before && !AttrKey(k) :: k in d.scalars && k in c.baseKeys)
  {
  }

  /** The server reads out of an add or mod request exactly the base part of the delta. */
  lemma BaseReadBack(c: Client, d: Delta, isAbsent: bool)
    requires ValidNames(c) && Sound(c, d)
    ensures EditOf(c, BaseRequest(c, d, isAbsent)) == BaseEdit(c, d)
  {
    BaseItem(c, d, isAbsent);
    BaseLists(c, d);
    BaseScalars(c, d);
    hide EditOf, BaseRequest, Sound, ValidNames, ChangedItem, RestrictScalars, Restrict, LinePairs, Rewritten, Pairs;
  }

  ghost function BaseRewritten(c: Client, d: Delta): Item {
    Rewritten(ChangedItem(c, d)[ALL := Val(Bool(true))])
  }

  lemma BaseLists(c: Client, d: Delta)
    requires ValidNames(c) && Sound(c, d)
    ensures LinePairs(BaseRewritten(c, d), ADDATTR) == Pairs(Restrict(d.listAdd, c.baseKeys))
    ensures LinePairs(BaseRewritten(c, d), DELATTR) == Pairs(Restrict(d.listDel, c.baseKeys))
  {
    var before := ChangedItem(c, d)[ALL := Val(Bool(true))];
    ChangedItemShape(c, d);
    WritableLists(c, d);
    hide Sound, ValidNames, ChangedItem, Restrict, LinePairs, Rewritten, Writable, Pairs;
    LinesReadBack(c, before, ADDATTR, Restrict(d.listAdd, c.baseKeys));
    LinesReadBack(c, before, DELATTR, Restrict(d.listDel, c.baseKeys));
  }

  lemma BaseScalars(c: Client, d: Delta)
    requires ValidNames(c) && Sound(c, d)
    ensures ItemEdit(BaseRewritten(c, d)).scalars == RestrictScalars(d.scalars, c.baseKeys)
  {
    ChangedItemShape(c, d);
    hide Sound, ValidNames, ChangedItem, Restrict, RestrictScalars, ItemEdit, Rewritten;
    ScalarsReadBack(c, d, ChangedItem(c, d)[ALL := Val(Bool(true))]);
  }

  lemma BaseItem(c: Client, d: Delta, isAbsent: bool)
    ensures EditOf(c, BaseRequest(c, d, isAbsent)) == ItemEdit(Rewritten(ChangedItem(c, d)[ALL := Val(Bool(true))]))
  {
    hide ItemEdit, Rewritten, ChangedItem;
  }

  lemma WritableLists(c: Client, d: Delta)
    requires ValidNames(c) && Sound(c, d)
    ensures Writable(Restrict(d.listAdd, c.baseKeys)) && Writable(Restrict(d.listDel, c.baseKeys))
  {
  }

  lemma ScalarsReadBack(c: Client, d: Delta, before: Item)
    requires forall k | k in d.scalars && k in c.baseKeys ::
      !AttrKey(k) && k != ALL && k in before && before[k] == Val(d.scalars[k])
    requires forall k | k in before && !AttrKey(k) && k != ALL :: k in d.scalars && k in c.baseKeys
    requires forall k | k in before && AttrKey(k) :: before[k].Grouped?
    ensures ItemEdit(Rewritten(before)).scalars == RestrictScalars(d.scalars, c.baseKeys)
  {
    var item := Rewritten(before);
    forall k | k in item && k != ALL ensures item[k] == RewrittenVal(k, before[k]) { }
  }

  ghost function RouteEdit(rt: Route, d: Delta): Edit {
    var ps := Pairs(Restrict(FromList(d, rt.from), rt.fields.Keys));
    if rt.from == ListAdd then Edit(map[], ps, {}) else Edit(map[], {}, ps)
  }

  /** The server reads out of a member request exactly its row's part of the delta. */
  lemma RouteReadBack(c: Client, rt: Route, d: Delta)
    requires Understood(rt) && Sound(c, d)
    ensures EditOf(c, RouteRequest(rt, d)) == RouteEdit(rt, d)
  {
    MemberReadBack(c, rt, MemberReading(rt.meth).value, d);
  }

  lemma MemberReadBack(c: Client, rt: Route, rd: Reading, d: Delta)
    requires Agrees(rt, rd) && Sound(c, d)
    ensures MemberPairs(rd, RouteRequest(rt, d)) == Pairs(Restrict(FromList(d, rt.from), rt.fields.Keys))
  {
    var r := RouteRequest(rt, d);
    var m := FromList(d, rt.from);
    var ps := Pairs(Restrict(m, rt.fields.Keys));
    forall p: Pair ensures p in MemberPairs(rd, r) <==> p in ps {
      var (a, v) := p;
      if p in ps {
        GivenBack(rt, rd, d, a, v);
        assert p == (rd.attrs[rt.fields[a]], v);
      }
      if p in MemberPairs(rd, r) {
        var f, u :| f in rd.attrs && u in Given(rd.carrier, r, f) && p == (rd.attrs[f], u);
        GivenFrom(c, rt, rd, d, f, u);
      }
    }
  }

  lemma GivenBack(rt: Route, rd: Reading, d: Delta, a: string, v: Atom)
    requires Agrees(rt, rd) && a in rt.fields && v in Get(FromList(d, rt.from), a) && v.Str?
    ensures v in Given(rd.carrier, RouteRequest(rt, d), rt.fields[a])
  {
    var f := rt.fields[a];
    if rd.carrier != NameArgument {
      assert f in FieldsOf(rt, d);
      assert Encoded(rt.carrier, v) in FieldValues(rt, d, f);
      assert Decoded(rt.carrier, Encoded(rt.carrier, v)) == v;
    }
  }

  lemma GivenFrom(c: Client, rt: Route, rd: Reading, d: Delta, f: string, v: Atom)
    requires Agrees(rt, rd) && Sound(c, d)
    requires f in rd.attrs && v in Given(rd.carrier, RouteRequest(rt, d), f)
    ensures v in Get(FromList(d, rt.from), rd.attrs[f])
  {
    var m := FromList(d, rt.from);
    if rd.carrier == NameArgument {
      var a :| a in rt.fields && v in Get(m, a);
      assert rt.fields[a] == "" == f;
    } else {
      var w :| w in FieldValues(rt, d, f) && v == Decoded(rd.carrier, w);
      var a, u :| a in rt.fields && rt.fields[a] == f && u in Get(m, a) && w == Encoded(rt.carrier, u);
      assert u.Str?;
    }
  }

  // ---------- the member requests together ----------

  ghost predicate Carried(routes: seq<Route>, dir: Direction, k: string) {
    exists i | 0 <= i < |routes| :: routes[i].from == dir && k in routes[i].fields
  }

  ghost function CarriedPairs(routes: seq<Route>, dir: Direction, ps: set<Pair>): set<Pair> {
    set p | p in ps && Carried(routes, dir, p.0)
  }

  lemma CarriedSnoc(routes: seq<Route>, dir: Direction, k: string)
    requires routes != []
    ensures var n := |routes| - 1;
      Carried(routes, dir, k) <==> Carried(routes[..n], dir, k) || (routes[n].from == dir && k in routes[n].fields)
  {
    var n := |routes| - 1;
    assert routes == routes[..n] + [routes[n]];
    if Carried(routes[..n], dir, k) {
      var i :| 0 <= i < n && routes[..n][i].from == dir && k in routes[..n][i].fields;
      assert routes[i].from == dir && k in routes[i].fields;
    }
    if Carried(routes, dir, k) {
      var i :| 0 <= i < |routes| && routes[i].from == dir && k in routes[i].fields;
      if i < n { assert routes[..n][i] == routes[i]; }
    }
  }

  lemma InactiveRoute(rt: Route, d: Delta)
    requires !RouteActive(rt, d)
    ensures Pairs(Restrict(FromList(d, rt.from), rt.fields.Keys)) == {}
  {
    assert Restrict(FromList(d, rt.from), rt.fields.Keys) == map[];
  }

  /** The object after the member requests of some rows. */
  ghost function AfterRoutes(routes: seq<Route>, d: Delta, o: Obj): Obj {
    Obj(o.scalars, o.pairs + CarriedPairs(routes, ListAdd, Pairs(d.listAdd))
                           - CarriedPairs(routes, ListDel, Pairs(d.listDel)))
  }

  lemma AfterOneMore(c: Client, routes: seq<Route>, d: Delta, o: Obj)
    requires Sound(c, d) && routes != []
    ensures var n := |routes| - 1;
      AfterRoutes(routes, d, o) == Apply(AfterRoutes(routes[..n], d, o), RouteEdit(routes[n], d))
  {
    assert Pairs(d.listAdd) !! Pairs(d.listDel);
    hide Sound, Carried, RouteActive;
    var n := |routes| - 1;
    var o1, o2 := AfterRoutes(routes[..n], d, o), AfterRoutes(routes, d, o);
    forall p: Pair ensures p in o2.pairs <==> p in Apply(o1, RouteEdit(routes[n], d)).pairs {
      CarriedSnoc(routes, ListAdd, p.0);
      CarriedSnoc(routes, ListDel, p.0);
    }
    assert Assign(o1.scalars, map[]) == o1.scalars;
  }

  /** On an object that exists every member request is accepted, and together they carry
      out the part of the delta that has a row. */
  lemma {:induction false} RoutesEffect(c: Client, routes: seq<Route>, d: Delta, o: Obj)
    requires Sound(c, d) && forall i | 0 <= i < |routes| :: Understood(routes[i])
    ensures ServeAll(c, Some(o), RouteQueue(routes, false, d)) == Accepted(Some(AfterRoutes(routes, d, o)))
  {
    if routes != [] {
      var n := |routes| - 1;
      var init, rt := routes[..n], routes[n];
      hide Sound, AfterRoutes, RouteRequest, EditOf, RouteActive, Understood, Serve;
      assert forall i | 0 <= i < n :: Understood(routes[i]) && init[i] == routes[i];
      RoutesEffect(c, init, d, o);
      AfterOneMore(c, routes, d, o);
      var o1 := AfterRoutes(init, d, o);
      if RouteActive(rt, d) {
        var r := RouteRequest(rt, d);
        RouteServed(c, o1, rt, d);
        ServeAppend(c, Some(o), RouteQueue(init, false, d), [r]);
        ServeOne(c, Some(o1), r);
      } else {
        InactiveRouteEdit(rt, d, o1);
        assert RouteQueue(routes, false, d) == RouteQueue(init, false, d);
      }
    } else {
      assert AfterRoutes(routes, d, o).pairs == o.pairs;
    }
  }

  lemma InactiveRouteEdit(rt: Route, d: Delta, o: Obj)
    requires !RouteActive(rt, d)
    ensures Apply(o, RouteEdit(rt, d)) == o
  {
    InactiveRoute(rt, d);
    assert Assign(o.scalars, map[]) == o.scalars;
  }

  lemma RouteServed(c: Client, o: Obj, rt: Route, d: Delta)
    requires Understood(rt) && Sound(c, d)
    ensures Serve(c, Some(o), RouteRequest(rt, d)) == Accepted(Some(Apply(o, RouteEdit(rt, d))))
  {
    hide Sound, RouteEdit, EditOf, Serve;
    RouteReadBack(c, rt, d);
    MemberServed(c, o, RouteRequest(rt, d));
  }

  lemma MemberServed(c: Client, o: Obj, r: Request)
    requires MemberReading(r.meth).Some?
    ensures Serve(c, Some(o), r) == Accepted(Some(Apply(o, EditOf(c, r))))
  {
  }
}
