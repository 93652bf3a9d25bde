/** No request of a run is a no-op: each one, when its turn comes, adds only values that are
    not there, removes only values that are, and changes the object. */
module EveryRequest {
  import opened Strings
  import opened IpaModel
  import opened Changes
  import opened IpaServer
  import opened Requests
  import opened Effect
  import opened QueueEffect
  import opened Convergence
  import opened Runs
  import opened Absence
  import opened Delivery

  // ---------- one edit ----------

  /** Writing scalar `k` makes a difference. */
  predicate Writes(s: Scalars, e: Scalars, k: string) {
    k in e && if e[k] == Null then k in s else k !in s || s[k] != e[k]
  }

  ghost predicate DoesSomething(s: Scalars, e: Edit) {
    e.add + e.del != {} || exists k :: Writes(s, e.scalars, k)
  }

  /** What is to be added is not there, and what is to be removed is. */
  predicate Needed(o: Obj, e: Edit) { e.add !! o.pairs && e.del <= o.pairs }

  lemma NeededEditChanges(o: Obj, e: Edit)
    requires Needed(o, e) && e.add !! e.del && DoesSomething(o.scalars, e)
    ensures Apply(o, e) != o
  {
    var now := Apply(o, e);
    if k :| Writes(o.scalars, e.scalars, k) {
      assert now.scalars != o.scalars;
    } else {
      var p :| p in e.add + e.del;
      assert p in now.pairs <==> p !in o.pairs;
    }
  }

  predicate SameAt(s: Scalars, t: Scalars, k: string) {
    (k in s <==> k in t) && (k in s ==> s[k] == t[k])
  }

  // ---------- one request of a queue, in its turn ----------

  ghost predicate WritesApart(c: Client, q: seq<Request>) {
    forall i, j | 0 <= i < j < |q| :: EditOf(c, q[i]).scalars.Keys !! EditOf(c, q[j]).scalars.Keys
  }

  lemma InTurn(c: Client, q: seq<Request>, o: Obj, i: nat, add: set<Pair>, del: set<Pair>)
    requires Independent(c, q) && WritesApart(c, q) && i < |q|
    requires ExactlyOnce(c, q, ListAdd, add) && ExactlyOnce(c, q, ListDel, del)
    requires add !! o.pairs && del <= o.pairs
    ensures var before := ServeAll(c, Some(o), q[..i]);
      var e := EditOf(c, q[i]);
      && before.Accepted? && before.obj.Some? && Needed(before.obj.value, e)
      && (forall k | k in e.scalars :: SameAt(o.scalars, before.obj.value.scalars, k))
      && ServeAll(c, Some(o), q[..i + 1]) == Accepted(Some(Apply(before.obj.value, e)))
  {
    hide EditOf, Serve, ServeAll, AfterAll, Independent, WritesApart, ExactlyOnce, Edits, Apply, Needed, SameAt;
    var init, r := q[..i], q[i];
    PrefixIndependent(c, q, i);
    PostedSum(c, init, o);
    var before := ServeAll(c, Some(o), init).obj.value;
    NeededInTurn(c, q, o, before, i, add, del);
    SameInTurn(c, q, o, before, i);
    assert q[..i + 1] == init + [r];
    ServeAppend(c, Some(o), init, [r]);
    ServeOne(c, Some(before), r);
    EditServed(c, before, r);
  }

  lemma PrefixIndependent(c: Client, q: seq<Request>, i: nat)
    requires Independent(c, q) && i < |q|
    ensures Independent(c, q[..i]) && Edits(q[i])
  {
    hide EditOf, Edits;
    assert forall j | 0 <= j < i :: q[..i][j] == q[j];
    assert forall s | s in q[..i] :: s in q;
    assert q[i] in q;
  }

  lemma NeededInTurn(c: Client, q: seq<Request>, o: Obj, before: Obj, i: nat, add: set<Pair>, del: set<Pair>)
    requires i < |q| && AfterAll(c, Elems(q[..i]), o, before)
    requires ExactlyOnce(c, q, ListAdd, add) && ExactlyOnce(c, q, ListDel, del)
    requires add !! o.pairs && del <= o.pairs
    ensures Needed(before, EditOf(c, q[i]))
  {
    var e := EditOf(c, q[i]);
    hide EditOf, AfterScalars;
    assert Carries(c, q[i], ListAdd) == e.add && Carries(c, q[i], ListDel) == e.del;
    forall p | p in e.add ensures p !in before.pairs {
      assert p !in o.pairs;
      forall r | r in Elems(q[..i]) ensures p !in EditOf(c, r).add {
        var j :| 0 <= j < i && q[j] == r;
        assert Carries(c, q[j], ListAdd) !! Carries(c, q[i], ListAdd);
      }
    }
    forall p | p in e.del ensures p in before.pairs {
      assert p in o.pairs;
      forall r | r in Elems(q[..i]) ensures p !in EditOf(c, r).del {
        var j :| 0 <= j < i && q[j] == r;
        assert Carries(c, q[j], ListDel) !! Carries(c, q[i], ListDel);
      }
    }
  }

  lemma SameInTurn(c: Client, q: seq<Request>, o: Obj, before: Obj, i: nat)
    requires i < |q| && AfterAll(c, Elems(q[..i]), o, before) && WritesApart(c, q)
    ensures forall k | k in EditOf(c, q[i]).scalars :: SameAt(o.scalars, before.scalars, k)
  {
    hide EditOf, AfterPairs;
    forall k | k in EditOf(c, q[i]).scalars ensures SameAt(o.scalars, before.scalars, k) {
      assert ScalarAfter(c, Elems(q[..i]), o, before, k);
      forall r | r in Elems(q[..i]) ensures k !in EditOf(c, r).scalars {
        var j :| 0 <= j < i && q[j] == r;
        assert EditOf(c, q[j]).scalars.Keys !! EditOf(c, q[i]).scalars.Keys;
      }
    }
  }

  // ---------- every request asks for something ----------

  lemma SomethingCarried(m: Lists)
    requires m != map[] && forall k | k in m :: m[k] != {}
    ensures Pairs(m) != {}
  {
    SomePair(m);
  }

  lemma {:induction false} MemberDoes(c: Client, routes: seq<Route>, d: Delta, r: Request, s: Scalars)
    requires AllUnderstood(routes) && Sound(c, d) && r in RouteQueue(routes, false, d)
    ensures DoesSomething(s, EditOf(c, r))
  {
    var n := |routes| - 1;
    if r in RouteQueue(routes[..n], false, d) {
      MemberDoes(c, routes[..n], d, r, s);
    } else {
      var rt := routes[n];
      assert Understood(rt);
      assert r == RouteRequest(rt, d) && RouteActive(rt, d);
      RouteReadBack(c, rt, d);
      var m := Restrict(FromList(d, rt.from), rt.fields.Keys);
      var a :| a in rt.fields && a in FromList(d, rt.from);
      assert a in m;
      SomethingCarried(m);
      hide RouteRequest, EditOf, RouteQueue;
    }
  }

  /** A base scalar of the delta differs from the object's, except for a default that is
      written over itself. */
  lemma BaseScalarWrites(c: Client, st: State, want: Slice, o: Obj, k: string)
    requires Wanted(c, st, want) && ValidDefaults(c)
    requires k in RestrictScalars(DeltaOf(c, st, want, Some(o)).scalars, c.baseKeys)
    ensures Writes(o.scalars, RestrictScalars(DeltaOf(c, st, want, Some(o)).scalars, c.baseKeys), k)
      || (st == Absent && ResetsToItself(c, want.scalars, o.scalars))
  {
    var d := ScalarChanges(c, st, want.scalars, View(c, o).scalars);
    if st == Absent {
      assert k in want.scalars && Matches(c, want.scalars, o.scalars, k);
    } else {
      assert k in ScalarKeys(c, st, want.scalars, View(c, o).scalars);
      assert k in View(c, o).scalars <==> k in o.scalars && KnownScalar(c, k);
    }
  }

  lemma BaseDoes(c: Client, st: State, want: Slice, o: Obj)
    requires Setting(c, st, want, Some(o))
    requires ChangedItem(c, DeltaOf(c, st, want, Some(o))) != map[]
    ensures DoesSomething(o.scalars, BaseEdit(c, DeltaOf(c, st, want, Some(o))))
      || (st == Absent && ResetsToItself(c, want.scalars, o.scalars))
  {
    SettingGives(c, st, want, Some(o));
    var d := DeltaOf(c, st, want, Some(o));
    hide Setting, ValidRoutes, AllUnderstood, WellTyped, DeltaOf, ChangedItem, ResetsToItself, Writes;
    ChangedItemEmpty(c, d);
    var adds, dels, scalars := Restrict(d.listAdd, c.baseKeys), Restrict(d.listDel, c.baseKeys), RestrictScalars(d.scalars, c.baseKeys);
    if adds != map[] {
      SomethingCarried(adds);
    } else if dels != map[] {
      SomethingCarried(dels);
    } else {
      var k :| k in scalars;
      BaseScalarWrites(c, st, want, o, k);
    }
  }

  lemma SwitchDoes(c: Client, st: State, want: Slice, o: Obj)
    requires Wanted(c, st, want) && ValidEnableKey(c)
    requires EnableActive(c, st, false, DeltaOf(c, st, want, Some(o)), View(c, o) == NOTHING)
    ensures DoesSomething(o.scalars, EditOf(c, EnableRequest(c, DeltaOf(c, st, want, Some(o)))))
  {
    var e := c.enableKey.value;
    var d := DeltaOf(c, st, want, Some(o));
    EnableGoalDelta(c, st, want, o);
    assert EditOf(c, EnableRequest(c, d)).scalars == map[e := want.scalars[e]];
    assert Writes(o.scalars, EditOf(c, EnableRequest(c, d)).scalars, e);
  }

  lemma ModDoes(c: Client, st: State, want: Slice, o: Obj, r: Request)
    requires Setting(c, st, want, Some(o)) && !Blocked(c, st, want, Some(o))
    requires r in BaseQueue(c, DeltaOf(c, st, want, Some(o)), View(c, o) == NOTHING, true)
    ensures r.meth == Mod
    ensures DoesSomething(o.scalars, EditOf(c, r)) || (st == Absent && ResetsToItself(c, want.scalars, o.scalars))
  {
    SettingGives(c, st, want, Some(o));
    var d := DeltaOf(c, st, want, Some(o));
    var isAbsent := View(c, o) == NOTHING;
    hide Setting, ValidRoutes, WellTyped, DeltaOf, ChangedItem, ResetsToItself, DoesSomething, EditOf, ValidNames, Sound, Wanted,
         ValidEnableKey, View, AllUnderstood, BaseRequest, BaseEdit;
    assert ChangedItem(c, d) != map[] && r == BaseRequest(c, d, isAbsent);
    BaseMeth(c, d, isAbsent);
    BaseReadBack(c, d, isAbsent);
    BaseDoes(c, st, want, o);
  }

  lemma BaseMeth(c: Client, d: Delta, isAbsent: bool)
    ensures BaseRequest(c, d, isAbsent).meth == if isAbsent then Add else Mod
  {
    hide ChangedItem;
  }

  /** Only a mod request can turn out to write what is there. */
  lemma RequestDoes(c: Client, st: State, want: Slice, o: Obj, r: Request)
    requires Setting(c, st, want, Some(o)) && !RemovesObject(st, want) && !Blocked(c, st, want, Some(o))
    requires r in Queue(c, st, false, want, Some(o))
    ensures DoesSomething(o.scalars, EditOf(c, r))
      || (st == Absent && r.meth == Mod && ResetsToItself(c, want.scalars, o.scalars))
  {
    SettingGives(c, st, want, Some(o));
    var d := DeltaOf(c, st, want, Some(o));
    var isAbsent := View(c, o) == NOTHING;
    hide Setting, ValidRoutes, WellTyped, DeltaOf, ChangedItem, ResetsToItself, DoesSomething, EditOf, RouteQueue,
         EnableRequest, EnableActive, ValidNames, Sound, Wanted, ValidEnableKey, View, AllUnderstood, BaseRequest, BaseEdit;
    if r in BaseQueue(c, d, isAbsent, true) {
      ModDoes(c, st, want, o, r);
    } else if r in EnableQueue(c, st, false, d, isAbsent) {
      SwitchDoes(c, st, want, o);
    } else {
      MemberDoes(c, c.routes, d, r, o.scalars);
    }
  }

  // ---------- the result ----------

  lemma QueueWritesApart(c: Client, q: seq<Request>)
    requires ValidEnableKey(c)
    requires forall r | r in q :: WritesOnly(c, r)
    requires forall i, j | 0 <= i < j < |q| && !MemberReading(q[i].meth).Some? && !MemberReading(q[j].meth).Some? ::
      q[i].meth == Mod && q[j].meth != Mod
    ensures WritesApart(c, q)
  {
    hide EditOf;
    forall i, j | 0 <= i < j < |q| ensures EditOf(c, q[i]).scalars.Keys !! EditOf(c, q[j]).scalars.Keys {
      assert WritesOnly(c, q[i]) && WritesOnly(c, q[j]);
    }
  }

  /** A pair of the delta is to be added if it is missing and removed if it is there. */
  lemma DeltaNeeded(c: Client, st: State, want: Slice, o: Option<Obj>)
    requires forall k | k in want.lists :: KnownList(c, k)
    ensures var d := DeltaOf(c, st, want, o);
      var pairs := if o.Some? then o.value.pairs else {};
      Pairs(d.listAdd) !! pairs && Pairs(d.listDel) <= pairs
  {
    DeltaPairs(c, st, want, ViewOf(c, o));
    if o.Some? { ViewPairs(c, o.value); } else { EmptyPairs(NOTHING.lists); }
  }

  ghost predicate Effective(c: Client, o: Option<Obj>, q: seq<Request>, i: nat, unless: bool)
    requires i < |q|
  {
    var before, after := ServeAll(c, o, q[..i]), ServeAll(c, o, q[..i + 1]);
    && before.Accepted? && after.Accepted? && after.obj.Some?
    && (before.obj.Some? ==> Needed(before.obj.value, EditOf(c, q[i])))
    && (after.obj == before.obj ==> unless)
  }

  lemma OnObject(c: Client, st: State, want: Slice, o: Obj, i: nat)
    requires Setting(c, st, want, Some(o)) && !RemovesObject(st, want) && !Blocked(c, st, want, Some(o))
    requires i < |Queue(c, st, false, want, Some(o))|
    ensures var q := Queue(c, st, false, want, Some(o));
      Effective(c, Some(o), q, i, st == Absent && q[i].meth == Mod && ResetsToItself(c, want.scalars, o.scalars))
  {
    var q := Queue(c, st, false, want, Some(o));
    var d := DeltaOf(c, st, want, Some(o));
    hide Setting, ValidNames, ValidRoutes, AllUnderstood, Sound, ComputeChanges, ExactlyOnce, Wanted, WellTyped, ValidEnableKey;
    hide Queue, Blocked, Independent, ServeAll, DeltaOf, EditOf, WritesOnly, ResetsToItself, Apply, Needed, Writes, WritesApart;
    QueueFacts(c, st, want, o);
    InTurn(c, q, o, i, Pairs(d.listAdd), Pairs(d.listDel));
    RequestDoes(c, st, want, o, q[i]);
    if DoesSomething(o.scalars, EditOf(c, q[i])) {
      StillDoes(c, q, o, ServeAll(c, Some(o), q[..i]).obj.value, i);
    }
  }

  /** What the requests on an object that exists are like. */
  lemma QueueFacts(c: Client, st: State, want: Slice, o: Obj)
    requires Setting(c, st, want, Some(o)) && !RemovesObject(st, want) && !Blocked(c, st, want, Some(o))
    ensures var q := Queue(c, st, false, want, Some(o));
      var d := DeltaOf(c, st, want, Some(o));
      && Independent(c, q) && WritesApart(c, q)
      && ExactlyOnce(c, q, ListAdd, Pairs(d.listAdd)) && ExactlyOnce(c, q, ListDel, Pairs(d.listDel))
      && Pairs(d.listAdd) !! o.pairs && Pairs(d.listDel) <= o.pairs
  {
    SettingGives(c, st, want, Some(o));
    var q := Queue(c, st, false, want, Some(o));
    var d := DeltaOf(c, st, want, Some(o));
    assert Pairs(d.listAdd) !! Pairs(d.listDel);
    DeltaNeeded(c, st, want, Some(o));
    hide Setting, ValidNames, ValidRoutes, AllUnderstood, Sound, ComputeChanges, ExactlyOnce, Wanted, WellTyped, ValidEnableKey;
    hide Queue, Blocked, Independent, DeltaOf, WritesOnly, WritesApart;
    DeliveredExactlyOnce(c, st, want, Some(o), ListAdd);
    DeliveredExactlyOnce(c, st, want, Some(o), ListDel);
    QueueWrites(c, st, want, Some(o));
    WritesIndependent(c, q, Pairs(d.listAdd), Pairs(d.listDel));
    QueueWritesApart(c, q);
  }

  lemma StillDoes(c: Client, q: seq<Request>, o: Obj, before: Obj, i: nat)
    requires Independent(c, q) && i < |q| && Needed(before, EditOf(c, q[i]))
    requires forall k | k in EditOf(c, q[i]).scalars :: SameAt(o.scalars, before.scalars, k)
    requires DoesSomething(o.scalars, EditOf(c, q[i]))
    ensures Apply(before, EditOf(c, q[i])) != before
  {
    var e := EditOf(c, q[i]);
    assert q[i] in q;
    hide EditOf;
    if e.add + e.del == {} {
      var k :| Writes(o.scalars, e.scalars, k);
      assert SameAt(o.scalars, before.scalars, k);
      assert Writes(before.scalars, e.scalars, k);
    }
    NeededEditChanges(before, e);
  }

  /** Whatever the start, each request of a run that goes through adds only what is missing and
      removes only what is there when its turn comes, and changes the object; the one exception
      is the mod request of an `absent` run that names a scalar with its own default. */
  lemma NoRequestIsNoOp(c: Client, st: State, want: Slice, o: Option<Obj>, i: nat)
    requires Setting(c, st, want, o) && !RemovesObject(st, want) && Run(c, st, false, want, o).Done?
    requires i < |Queue(c, st, false, want, o)|
    ensures var q := Queue(c, st, false, want, o);
      Effective(c, o, q, i,
        st == Absent && o.Some? && q[i].meth == Mod && ResetsToItself(c, want.scalars, o.value.scalars))
  {
    RunEffect(c, st, want, o);
    if o.Some? {
      OnObject(c, st, want, o.value, i);
    } else {
      OnNothing(c, st, want, i);
    }
  }

  lemma OnNothing(c: Client, st: State, want: Slice, i: nat)
    requires Setting(c, st, want, None) && !RemovesObject(st, want)
    requires i < |Queue(c, st, false, want, None)|
    ensures Effective(c, None, Queue(c, st, false, want, None), i, false)
  {
    hide *;
    SettingGives(c, st, want, None);
    var d := DeltaOf(c, st, want, None);
    var made := Apply(NewObj(c), BaseEdit(c, d));
    var r := RouteQueue(c.routes, false, d);
    QueueOnNothing(c, st, want);
    AddMakes(c, d);
    NewNeedsMembers(c, st, want);
    if i > 0 { MembersEffective(c, d, made, i - 1); }
    AfterAdd(c, BaseRequest(c, d, true), r, made, i);
  }

  lemma QueueOnNothing(c: Client, st: State, want: Slice)
    requires !RemovesObject(st, want)
    ensures var d := DeltaOf(c, st, want, None);
      Queue(c, st, false, want, None) == [BaseRequest(c, d, true)] + RouteQueue(c.routes, false, d)
  {
    hide RouteQueue, BaseRequest, ComputeChanges, ChangedItem;
  }

  /** The object that the add request makes. */
  lemma AddMakes(c: Client, d: Delta)
    requires ValidNames(c) && Sound(c, d)
    ensures Serve(c, None, BaseRequest(c, d, true)) == Accepted(Some(Apply(NewObj(c), BaseEdit(c, d))))
  {
    BaseReadBack(c, d, true);
    hide EditOf, BaseEdit, Apply, ChangedItem;
  }

  lemma NewNeedsMembers(c: Client, st: State, want: Slice)
    requires Setting(c, st, want, None)
    ensures var d := DeltaOf(c, st, want, None);
      && CarriedPairs(c.routes, ListAdd, Pairs(d.listAdd)) !! Apply(NewObj(c), BaseEdit(c, d)).pairs
      && CarriedPairs(c.routes, ListDel, Pairs(d.listDel)) == {}
  {
    SettingGives(c, st, want, None);
    var d := DeltaOf(c, st, want, None);
    DeltaNeeded(c, st, want, None);
    RoutedNotBase(c, d, ListAdd);
    hide Setting, ValidNames, Wanted, DeltaOf, ValidRoutes, Sound, AllUnderstood;
  }

  lemma AfterAdd(c: Client, add: Request, r: seq<Request>, made: Obj, i: nat)
    requires Serve(c, None, add) == Accepted(Some(made)) && i <= |r|
    requires i > 0 ==> Effective(c, Some(made), r, i - 1, false)
    ensures Effective(c, None, [add] + r, i, false)
  {
    hide EditOf, Needed, Serve;
    var q := [add] + r;
    ServeOne(c, None, add);
    if i == 0 {
      assert q[..0] == [] && q[..1] == [add];
    } else {
      assert q[..i] == [add] + r[..i - 1] && q[..i + 1] == [add] + r[..i];
      assert q[i] == r[i - 1];
      ServeAppend(c, None, [add], r[..i - 1]);
      ServeAppend(c, None, [add], r[..i]);
    }
  }

  /** The member requests after an add. */
  lemma MembersEffective(c: Client, d: Delta, made: Obj, i: nat)
    requires ValidRoutes(c) && ValidEnableKey(c) && Sound(c, d) && AllUnderstood(c.routes)
    requires CarriedPairs(c.routes, ListAdd, Pairs(d.listAdd)) !! made.pairs
    requires CarriedPairs(c.routes, ListDel, Pairs(d.listDel)) <= made.pairs
    requires i < |RouteQueue(c.routes, false, d)|
    ensures Effective(c, Some(made), RouteQueue(c.routes, false, d), i, false)
  {
    var r := RouteQueue(c.routes, false, d);
    hide Apply, Needed, Writes, EditOf, RouteQueue, ValidRoutes, Sound, AllUnderstood, CarriedPairs, DoesSomething, Independent;
    MembersIndependent(c, d);
    RoutesApart(c);
    RoutesOnce(c, c.routes, d, ListAdd);
    RoutesOnce(c, c.routes, d, ListDel);
    MembersWriteNothing(c, d);
    InTurn(c, r, made, i, CarriedPairs(c.routes, ListAdd, Pairs(d.listAdd)), CarriedPairs(c.routes, ListDel, Pairs(d.listDel)));
    MemberDoes(c, c.routes, d, r[i], made.scalars);
    StillDoes(c, r, made, ServeAll(c, Some(made), r[..i]).obj.value, i);
  }

  lemma MembersWriteNothing(c: Client, d: Delta)
    requires AllUnderstood(c.routes)
    ensures WritesApart(c, RouteQueue(c.routes, false, d))
  {
    var r := RouteQueue(c.routes, false, d);
    RouteQueueWrites(c, c.routes, d);
    hide EditOf, RouteQueue;
    forall i, j | 0 <= i < j < |r| ensures EditOf(c, r[i]).scalars.Keys !! EditOf(c, r[j]).scalars.Keys {
      assert r[i] in r && WritesOnly(c, r[i]);
    }
  }
}
