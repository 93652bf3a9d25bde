/** Every change of a delta travels in exactly one request, and the order of the requests
    does not matter. */
module Delivery {
  import opened Strings
  import opened IpaModel
  import opened Changes
  import opened IpaServer
  import opened Requests
  import opened Effect
  import opened QueueEffect
  import opened Convergence

  /** The pairs a request adds or removes, as the server reads it. */
  function Carries(c: Client, r: Request, dir: Direction): set<Pair> {
    if dir == ListAdd then EditOf(c, r).add else EditOf(c, r).del
  }

  /** Each pair of `ps` is carried by exactly one request of the queue, and nothing else is. */
  ghost predicate ExactlyOnce(c: Client, q: seq<Request>, dir: Direction, ps: set<Pair>) {
    && (forall p | p in ps :: exists i | 0 <= i < |q| :: p in Carries(c, q[i], dir))
    && (forall i | 0 <= i < |q| :: Carries(c, q[i], dir) <= ps)
    && (forall i, j | 0 <= i < j < |q| :: Carries(c, q[i], dir) !! Carries(c, q[j], dir))
  }

  lemma ExactlyOnceAppend(c: Client, a: seq<Request>, b: seq<Request>, dir: Direction, ps: set<Pair>, qs: set<Pair>)
    requires ExactlyOnce(c, a, dir, ps) && ExactlyOnce(c, b, dir, qs) && ps !! qs
    ensures ExactlyOnce(c, a + b, dir, ps + qs)
  {
    var q := a + b;
    assert forall i | 0 <= i < |a| :: q[i] == a[i];
    assert forall i | 0 <= i < |b| :: q[|a| + i] == b[i];
    forall p | p in ps + qs ensures exists i | 0 <= i < |q| :: p in Carries(c, q[i], dir) {
      if p in ps {
        var i :| 0 <= i < |a| && p in Carries(c, a[i], dir);
        assert p in Carries(c, q[i], dir);
      } else {
        var i :| 0 <= i < |b| && p in Carries(c, b[i], dir);
        assert p in Carries(c, q[|a| + i], dir);
      }
    }
    forall i | 0 <= i < |q| ensures Carries(c, q[i], dir) <= if i < |a| then ps else qs {
      assert q[i] == if i < |a| then a[i] else b[i - |a|];
    }
    forall i, j | 0 <= i < j < |q| ensures Carries(c, q[i], dir) !! Carries(c, q[j], dir) {
      if j < |a| {
        assert Carries(c, a[i], dir) !! Carries(c, a[j], dir);
      } else if i >= |a| {
        assert Carries(c, b[i - |a|], dir) !! Carries(c, b[j - |a|], dir);
      } else {
        assert Carries(c, q[i], dir) <= ps && Carries(c, q[j], dir) <= qs;
      }
    }
  }

  lemma OnceSingle(c: Client, r: Request, dir: Direction)
    ensures ExactlyOnce(c, [r], dir, Carries(c, r, dir))
  {
    assert [r][0] == r;
  }

  ghost function ListsOf(d: Delta, dir: Direction): set<Pair> { Pairs(FromList(d, dir)) }

  lemma BaseOnce(c: Client, d: Delta, isAbsent: bool, exists_: bool, dir: Direction)
    requires ValidNames(c) && Sound(c, d)
    ensures ExactlyOnce(c, BaseQueue(c, d, isAbsent, exists_), dir, Pairs(Restrict(FromList(d, dir), c.baseKeys)))
  {
    hide ChangedItem;
    if ChangedItem(c, d) == map[] && exists_ {
      EmptyItem(c, d);
    } else {
      BaseReadBack(c, d, isAbsent);
      OnceSingle(c, BaseRequest(c, d, isAbsent), dir);
    }
  }

  lemma {:induction false} RoutesOnce(c: Client, routes: seq<Route>, d: Delta, dir: Direction)
    requires Sound(c, d) && AllUnderstood(routes) && Apart(routes)
    ensures ExactlyOnce(c, RouteQueue(routes, false, d), dir, CarriedPairs(routes, dir, ListsOf(d, dir)))
  {
    if routes == [] {
      assert CarriedPairs(routes, dir, ListsOf(d, dir)) == {};
    } else {
      var n := |routes| - 1;
      RoutesOnce(c, routes[..n], d, dir);
      CarriedSplit(routes, d, dir);
      OneRouteOnce(c, routes[n], d, dir);
      ExactlyOnceAppend(c, RouteQueue(routes[..n], false, d), RouteStep(routes[n], d), dir,
                        CarriedPairs(routes[..n], dir, ListsOf(d, dir)), OwnPairs(routes[n], d, dir));
    }
  }

  function RouteStep(rt: Route, d: Delta): seq<Request> {
    if RouteActive(rt, d) then [RouteRequest(rt, d)] else []
  }

  ghost function OwnPairs(rt: Route, d: Delta, dir: Direction): set<Pair> {
    if rt.from == dir then Pairs(Restrict(FromList(d, dir), rt.fields.Keys)) else {}
  }

  lemma OneRouteOnce(c: Client, rt: Route, d: Delta, dir: Direction)
    requires Understood(rt) && Sound(c, d)
    ensures ExactlyOnce(c, RouteStep(rt, d), dir, OwnPairs(rt, d, dir))
  {
    if RouteActive(rt, d) {
      RouteReadBack(c, rt, d);
      OnceSingle(c, RouteRequest(rt, d), dir);
    } else {
      InactiveRoute(rt, d);
    }
  }

  lemma CarriedSplit(routes: seq<Route>, d: Delta, dir: Direction)
    requires routes != [] && Apart(routes)
    ensures var n := |routes| - 1;
      var own := OwnPairs(routes[n], d, dir);
      && CarriedPairs(routes, dir, ListsOf(d, dir)) == CarriedPairs(routes[..n], dir, ListsOf(d, dir)) + own
      && CarriedPairs(routes[..n], dir, ListsOf(d, dir)) !! own
  {
    var n := |routes| - 1;
    assert forall i | 0 <= i < n :: routes[..n][i] == routes[i];
    forall p: Pair ensures Carried(routes, dir, p.0) <==>
        Carried(routes[..n], dir, p.0) || (routes[n].from == dir && p.0 in routes[n].fields)
    {
      CarriedSnoc(routes, dir, p.0);
    }
  }

  lemma EnableCarriesNothing(c: Client, st: State, d: Delta, isAbsent: bool, dir: Direction)
    ensures ExactlyOnce(c, EnableQueue(c, st, false, d, isAbsent), dir, {})
  {
  }

  /** Outside check mode, every value to add and every value to remove appears in exactly one
      queued request of the right direction, and the requests ask for nothing more. */
  lemma DeliveredExactlyOnce(c: Client, st: State, want: Slice, o: Option<Obj>, dir: Direction)
    requires Setting(c, st, want, o) && !RemovesObject(st, want)
    ensures ExactlyOnce(c, Queue(c, st, false, want, o), dir, ListsOf(DeltaOf(c, st, want, o), dir))
  {
    SettingGives(c, st, want, o);
    hide Setting, ValidNames, ValidRoutes, AllUnderstood, Sound, ComputeChanges, ExactlyOnce, CarriedPairs;
    hide Restrict, View, BaseQueue, EnableQueue, RouteQueue, Wanted, WellTyped, Pairs;
    var d := DeltaOf(c, st, want, o);
    var isAbsent := ViewOf(c, o) == NOTHING;
    var b := BaseQueue(c, d, isAbsent, o.Some?);
    var e := EnableQueue(c, st, false, d, isAbsent);
    var bs := Pairs(Restrict(FromList(d, dir), c.baseKeys));
    var rs := CarriedPairs(c.routes, dir, ListsOf(d, dir));
    BaseOnce(c, d, isAbsent, o.Some?, dir);
    EnableCarriesNothing(c, st, d, isAbsent, dir);
    ExactlyOnceAppend(c, b, e, dir, bs, {});
    RoutesApart(c);
    RoutesOnce(c, c.routes, d, dir);
    RoutedNotBase(c, d, dir);
    KnownLists(c, d, dir);
    AllCarried(c, dir, FromList(d, dir));
    assert bs + {} == bs;
    ExactlyOnceAppend(c, b + e, RouteQueue(c.routes, false, d), dir, bs, rs);
  }

  lemma KnownLists(c: Client, d: Delta, dir: Direction)
    requires Sound(c, d)
    ensures forall k | k in FromList(d, dir) :: KnownList(c, k)
  {
  }

  ghost predicate Apart(routes: seq<Route>) {
    forall i, j, k | 0 <= i < j < |routes| && k in routes[i].fields && k in routes[j].fields ::
      routes[i].from != routes[j].from
  }

  lemma RoutesApart(c: Client)
    requires ValidRoutes(c)
    ensures Apart(c.routes)
  {
  }

  lemma RoutedNotBase(c: Client, d: Delta, dir: Direction)
    requires ValidRoutes(c)
    ensures Pairs(Restrict(FromList(d, dir), c.baseKeys)) !! CarriedPairs(c.routes, dir, ListsOf(d, dir))
  {
  }

  // ---------- the form of requests ----------

  predicate AsksForAll(r: Request) { "all" in r.item && r.item["all"] == Val(Bool(true)) }

  /** What a request looks like. Add and mod carry base keys and lines, member requests the item
      keys that the server reads, or the values next to the name and then nothing else; all of
      these ask for the whole object in reply. Removals and switches are the bare name. */
  ghost predicate WellFormed(c: Client, r: Request) {
    match r.meth
    case Add => r.extra == {} && AsksForAll(r) && r.item.Keys <= c.baseKeys + {"addattr", "delattr", "all"}
    case Mod => r.extra == {} && AsksForAll(r) && r.item.Keys <= c.baseKeys + {"addattr", "delattr", "all"}
    case Rem => r.extra == {} && r.item == map[]
    case Enable => r.extra == {} && r.item == map[]
    case Disable => r.extra == {} && r.item == map[]
    case m =>
      && MemberReading(m).Some?
      && var rd := MemberReading(m).value;
      && AsksForAll(r)
      && if rd.carrier == NameArgument then r.item.Keys == {"all"}
         else r.extra == {} && r.item.Keys <= rd.attrs.Keys + {"all"}
  }

  lemma RequestsWellFormed(c: Client, st: State, check: bool, want: Slice, o: Option<Obj>)
    requires AllUnderstood(c.routes)
    ensures forall r | r in Queue(c, st, check, want, o) :: WellFormed(c, r)
  {
    hide ViewOf, ComputeChanges, BaseQueue, EnableQueue, RouteQueue, WellFormed, RemovesObject;
    var d := ComputeChanges(c, st, want, ViewOf(c, o));
    BaseWellFormed(c, d, ViewOf(c, o) == NOTHING, o.Some?);
    EnableWellFormed(c, st, check, d, ViewOf(c, o) == NOTHING);
    RoutesWellFormed(c, c.routes, check, d);
    RemWellFormed(c);
  }

  lemma RemWellFormed(c: Client)
    ensures WellFormed(c, REM_REQUEST)
  {
  }

  lemma BaseWellFormed(c: Client, d: Delta, isAbsent: bool, exists_: bool)
    ensures forall r | r in BaseQueue(c, d, isAbsent, exists_) :: WellFormed(c, r)
  {
    ChangedKeys(c, d);
    hide ChangedItem;
  }

  lemma ChangedKeys(c: Client, d: Delta)
    ensures ChangedItem(c, d).Keys <= c.baseKeys + {"addattr", "delattr"}
  {
  }

  lemma EnableWellFormed(c: Client, st: State, check: bool, d: Delta, isAbsent: bool)
    ensures forall r | r in EnableQueue(c, st, check, d, isAbsent) :: WellFormed(c, r)
  {
  }

  lemma {:induction false} RoutesWellFormed(c: Client, routes: seq<Route>, check: bool, d: Delta)
    requires AllUnderstood(routes)
    ensures forall r | r in RouteQueue(routes, check, d) :: WellFormed(c, r)
  {
    if routes != [] {
      var n := |routes| - 1;
      RoutesWellFormed(c, routes[..n], check, d);
      assert Understood(routes[n]);
      MemberWellFormed(c, routes[n], d);
    }
  }

  lemma MemberWellFormed(c: Client, rt: Route, d: Delta)
    requires Understood(rt)
    ensures WellFormed(c, RouteRequest(rt, d))
  {
  }

  // ---------- any order ----------

  /** Requests that change an object that is there. */
  predicate Edits(r: Request) {
    r.meth == Mod || r.meth == Enable || r.meth == Disable || MemberReading(r.meth).Some?
  }

  /** No value is added by one request and removed by another, and no scalar is written by two. */
  ghost predicate Independent(c: Client, q: seq<Request>) {
    && (forall r | r in q :: Edits(r))
    && (forall r, s | r in q && s in q :: EditOf(c, r).add !! EditOf(c, s).del)
    && (forall r, s | r in q && s in q && r != s :: EditOf(c, r).scalars.Keys !! EditOf(c, s).scalars.Keys)
  }

  /** The object after a set of independent requests, whatever their order. */
  ghost predicate AfterAll(c: Client, rs: set<Request>, o: Obj, now: Obj) {
    AfterPairs(c, rs, o, now) && AfterScalars(c, rs, o, now)
  }

  ghost predicate AfterPairs(c: Client, rs: set<Request>, o: Obj, now: Obj) {
    && (forall p: Pair :: p in now.pairs <==>
          || (exists r | r in rs :: p in EditOf(c, r).add)
          || (p in o.pairs && forall r | r in rs :: p !in EditOf(c, r).del))
  }

  ghost predicate AfterScalars(c: Client, rs: set<Request>, o: Obj, now: Obj) {
    forall k :: ScalarAfter(c, rs, o, now, k)
  }

  /** One scalar after a set of requests: as the one that writes it says, or as before. */
  ghost predicate ScalarAfter(c: Client, rs: set<Request>, o: Obj, now: Obj, k: string) {
    && (forall r | r in rs && k in EditOf(c, r).scalars ::
          if EditOf(c, r).scalars[k] == Null then k !in now.scalars
          else k in now.scalars && now.scalars[k] == EditOf(c, r).scalars[k])
    && ((forall r | r in rs :: k !in EditOf(c, r).scalars) ==>
          (k in now.scalars <==> k in o.scalars) && (k in o.scalars ==> now.scalars[k] == o.scalars[k]))
  }

  lemma {:induction false} PostedSum(c: Client, q: seq<Request>, o: Obj)
    requires Independent(c, q)
    ensures ServeAll(c, Some(o), q).Accepted? && ServeAll(c, Some(o), q).obj.Some?
    ensures AfterAll(c, Elems(q), o, ServeAll(c, Some(o), q).obj.value)
  {
    if q != [] {
      hide AfterAll, EditOf, Serve;
      var n := |q| - 1;
      var init, last := q[..n], q[n];
      assert forall r | r in init :: r in q;
      PostedSum(c, init, o);
      var mid := ServeAll(c, Some(o), init).obj.value;
      assert Elems(q) == Elems(init) + {last};
      assert Edits(last);
      EditServed(c, mid, last);
      SumSnoc(c, Elems(init), last, o, mid);
    }
  }

  lemma EditServed(c: Client, o: Obj, r: Request)
    requires Edits(r)
    ensures Serve(c, Some(o), r) == Accepted(Some(Apply(o, EditOf(c, r))))
  {
  }

  lemma SumSnoc(c: Client, rs: set<Request>, last: Request, o: Obj, mid: Obj)
    requires AfterAll(c, rs, o, mid)
    requires forall r, s | r in rs + {last} && s in rs + {last} :: EditOf(c, r).add !! EditOf(c, s).del
    requires forall r, s | r in rs + {last} && s in rs + {last} && r != s ::
      EditOf(c, r).scalars.Keys !! EditOf(c, s).scalars.Keys
    ensures AfterAll(c, rs + {last}, o, Apply(mid, EditOf(c, last)))
  {
    hide EditOf;
    PairsSnoc(c, rs, last, o, mid);
    ScalarsSnoc(c, rs, last, o, mid);
  }

  lemma PairsSnoc(c: Client, rs: set<Request>, last: Request, o: Obj, mid: Obj)
    requires AfterPairs(c, rs, o, mid)
    requires forall r, s | r in rs + {last} && s in rs + {last} :: EditOf(c, r).add !! EditOf(c, s).del
    ensures AfterPairs(c, rs + {last}, o, Apply(mid, EditOf(c, last)))
  {
    hide EditOf;
    var now := Apply(mid, EditOf(c, last));
    var all := rs + {last};
    forall p: Pair ensures p in now.pairs <==>
        || (exists r | r in all :: p in EditOf(c, r).add)
        || (p in o.pairs && forall r | r in all :: p !in EditOf(c, r).del)
    {
      if r :| r in all && p in EditOf(c, r).add {
        assert p !in EditOf(c, last).del;
      }
    }
  }

  lemma ScalarsSnoc(c: Client, rs: set<Request>, last: Request, o: Obj, mid: Obj)
    requires AfterScalars(c, rs, o, mid)
    requires forall r, s | r in rs + {last} && s in rs + {last} && r != s ::
      EditOf(c, r).scalars.Keys !! EditOf(c, s).scalars.Keys
    ensures AfterScalars(c, rs + {last}, o, Apply(mid, EditOf(c, last)))
  {
    hide ScalarAfter, EditOf;
    forall k ensures ScalarAfter(c, rs + {last}, o, Apply(mid, EditOf(c, last)), k) {
      assert ScalarAfter(c, rs, o, mid, k);
      forall r | r in rs && r != last ensures EditOf(c, r).scalars.Keys !! EditOf(c, last).scalars.Keys {
        assert r in rs + {last} && last in rs + {last};
      }
      ScalarSnoc(c, rs, last, o, mid, k);
    }
  }

  lemma ScalarSnoc(c: Client, rs: set<Request>, last: Request, o: Obj, mid: Obj, k: string)
    requires ScalarAfter(c, rs, o, mid, k)
    requires forall r | r in rs && r != last :: EditOf(c, r).scalars.Keys !! EditOf(c, last).scalars.Keys
    ensures ScalarAfter(c, rs + {last}, o, Apply(mid, EditOf(c, last)), k)
  {
    AssignAt(mid.scalars, EditOf(c, last).scalars);
    hide EditOf, Assign;
  }

  lemma AssignAt(s: Scalars, e: Scalars)
    ensures forall k | k in e :: if e[k] == Null then k !in Assign(s, e) else k in Assign(s, e) && Assign(s, e)[k] == e[k]
    ensures forall k | k !in e :: (k in Assign(s, e) <==> k in s) && (k in s ==> Assign(s, e)[k] == s[k])
  {
  }

  lemma SumUnique(c: Client, rs: set<Request>, o: Obj, a: Obj, b: Obj)
    requires AfterAll(c, rs, o, a) && AfterAll(c, rs, o, b)
    ensures a == b
  {
    hide EditOf;
    forall k ensures (k in a.scalars <==> k in b.scalars) && (k in a.scalars ==> a.scalars[k] == b.scalars[k]) {
      ScalarUnique(c, rs, o, a, b, k);
    }
    assert a.scalars == b.scalars;
    forall p: Pair ensures p in a.pairs <==> p in b.pairs { }
  }

  lemma ScalarUnique(c: Client, rs: set<Request>, o: Obj, a: Obj, b: Obj, k: string)
    requires AfterAll(c, rs, o, a) && AfterAll(c, rs, o, b)
    ensures (k in a.scalars <==> k in b.scalars) && (k in a.scalars ==> a.scalars[k] == b.scalars[k])
  {
    hide EditOf;
    assert ScalarAfter(c, rs, o, a, k) && ScalarAfter(c, rs, o, b, k);
    if r :| r in rs && k in EditOf(c, r).scalars {
      var v := EditOf(c, r).scalars[k];
      assert if v == Null then k !in a.scalars else k in a.scalars && a.scalars[k] == v;
      assert if v == Null then k !in b.scalars else k in b.scalars && b.scalars[k] == v;
    }
  }

  /** Independent requests give the same object in any posting order. */
  lemma OrderIrrelevant(c: Client, q: seq<Request>, q': seq<Request>, o: Obj)
    requires Independent(c, q) && multiset(q) == multiset(q')
    ensures ServeAll(c, Some(o), q) == ServeAll(c, Some(o), q')
  {
    MultisetFacts(q, q');
    assert forall r :: r in q <==> r in Elems(q);
    assert forall r :: r in q' <==> r in Elems(q');
    PostedSum(c, q, o);
    PostedSum(c, q', o);
    SumUnique(c, Elems(q), o, ServeAll(c, Some(o), q).obj.value, ServeAll(c, Some(o), q').obj.value);
  }

  // ---------- the engine's queues ----------

  /** What kinds of request a queue holds, and which scalars they write. */
  predicate WritesOnly(c: Client, r: Request) {
    || (r.meth == Mod && EditOf(c, r).scalars.Keys <= c.baseKeys)
    || ((r.meth == Enable || r.meth == Disable) && c.enableKey.Some? && EditOf(c, r).scalars.Keys == {c.enableKey.value})
    || (MemberReading(r.meth).Some? && EditOf(c, r).scalars == map[])
  }

  lemma {:induction false} RouteQueueWrites(c: Client, routes: seq<Route>, d: Delta)
    requires forall i | 0 <= i < |routes| :: Understood(routes[i])
    ensures forall r | r in RouteQueue(routes, false, d) :: WritesOnly(c, r) && MemberReading(r.meth).Some?
  {
    if routes != [] {
      var n := |routes| - 1;
      RouteQueueWrites(c, routes[..n], d);
      assert Understood(routes[n]);
      MemberWrites(c, RouteRequest(routes[n], d));
    }
  }

  lemma MemberWrites(c: Client, r: Request)
    requires MemberReading(r.meth).Some?
    ensures WritesOnly(c, r)
  {
  }

  /** The requests that follow the base request, and a mod request, are independent. */
  lemma WritesIndependent(c: Client, q: seq<Request>, add: set<Pair>, del: set<Pair>)
    requires ValidEnableKey(c) && add !! del
    requires ExactlyOnce(c, q, ListAdd, add) && ExactlyOnce(c, q, ListDel, del)
    requires forall r | r in q :: WritesOnly(c, r)
    requires forall i, j | 0 <= i < j < |q| && !MemberReading(q[i].meth).Some? && !MemberReading(q[j].meth).Some? ::
      q[i].meth == Mod && q[j].meth != Mod
    ensures Independent(c, q)
  {
    forall r | r in q ensures EditOf(c, r).add <= add && EditOf(c, r).del <= del && Edits(r) {
      var i :| 0 <= i < |q| && q[i] == r;
      assert Carries(c, q[i], ListAdd) <= add && Carries(c, q[i], ListDel) <= del;
    }
    forall r, s | r in q && s in q && r != s ensures EditOf(c, r).scalars.Keys !! EditOf(c, s).scalars.Keys {
      var i :| 0 <= i < |q| && q[i] == r;
      var j :| 0 <= j < |q| && q[j] == s;
      assert WritesOnly(c, q[i]) && WritesOnly(c, q[j]);
    }
  }

  /** On an object that exists, any posting order of a run's requests gives the object the
      run gives. */
  lemma AnyOrder(c: Client, st: State, want: Slice, o: Obj, q': seq<Request>)
    requires Setting(c, st, want, Some(o)) && !RemovesObject(st, want)
    requires !Blocked(c, st, want, Some(o))
    requires multiset(q') == multiset(Queue(c, st, false, want, Some(o)))
    ensures ServeAll(c, Some(o), q') == ServeAll(c, Some(o), Queue(c, st, false, want, Some(o)))
  {
    SettingGives(c, st, want, Some(o));
    var q := Queue(c, st, false, want, Some(o));
    var d := DeltaOf(c, st, want, Some(o));
    assert Pairs(d.listAdd) !! Pairs(d.listDel);
    hide Setting, ValidNames, ValidRoutes, AllUnderstood, Sound, ComputeChanges, ExactlyOnce, Wanted, WellTyped, ValidEnableKey;
    hide Queue, Blocked, Independent, ServeAll, DeltaOf;
    DeliveredExactlyOnce(c, st, want, Some(o), ListAdd);
    DeliveredExactlyOnce(c, st, want, Some(o), ListDel);
    QueueWrites(c, st, want, Some(o));
    WritesIndependent(c, q, Pairs(d.listAdd), Pairs(d.listDel));
    OrderIrrelevant(c, q, q', o);
  }

  lemma QueueWrites(c: Client, st: State, want: Slice, o: Option<Obj>)
    requires Setting(c, st, want, o) && !RemovesObject(st, want) && o.Some? && !Blocked(c, st, want, o)
    ensures var q := Queue(c, st, false, want, o);
      && (forall r | r in q :: WritesOnly(c, r))
      && (forall i, j | 0 <= i < j < |q| && !MemberReading(q[i].meth).Some? && !MemberReading(q[j].meth).Some? ::
            q[i].meth == Mod && q[j].meth != Mod)
  {
    var d := DeltaOf(c, st, want, o);
    var isAbsent := ViewOf(c, o) == NOTHING;
    var b := BaseQueue(c, d, isAbsent, true);
    var e := EnableQueue(c, st, false, d, isAbsent);
    var r := RouteQueue(c.routes, false, d);
    DeltaSound(c, st, want, o);
    BaseWrites(c, d, isAbsent);
    EnableWrites(c, st, d, isAbsent);
    RouteQueueWrites(c, c.routes, d);
    QueueShape(b, e, r);
  }

  lemma BaseWrites(c: Client, d: Delta, isAbsent: bool)
    requires ValidNames(c) && Sound(c, d) && (isAbsent ==> ChangedItem(c, d) == map[])
    ensures var b := BaseQueue(c, d, isAbsent, true);
      |b| <= 1 && forall r | r in b :: r.meth == Mod && WritesOnly(c, r)
  {
    hide ChangedItem;
    BaseReadBack(c, d, isAbsent);
  }

  lemma EnableWrites(c: Client, st: State, d: Delta, isAbsent: bool)
    ensures var e := EnableQueue(c, st, false, d, isAbsent);
      |e| <= 1 && forall r | r in e :: r.meth != Mod && WritesOnly(c, r)
  {
  }

  lemma QueueShape(b: seq<Request>, e: seq<Request>, r: seq<Request>)
    requires |b| <= 1 && |e| <= 1
    requires b != [] ==> b[0].meth == Mod
    requires e != [] ==> e[0].meth != Mod
    requires forall x | x in r :: MemberReading(x.meth).Some?
    ensures var q := b + e + r;
      forall i, j | 0 <= i < j < |q| && !MemberReading(q[i].meth).Some? && !MemberReading(q[j].meth).Some? ::
        q[i].meth == Mod && q[j].meth != Mod
  {
    var q := b + e + r;
    forall i | |b + e| <= i < |q| ensures MemberReading(q[i].meth).Some? {
      assert q[i] == r[i - |b + e|];
      assert q[i] in r;
    }
    assert forall i | 0 <= i < |b + e| :: q[i] == (b + e)[i];
  }

  lemma MembersIndependent(c: Client, d: Delta)
    requires ValidRoutes(c) && ValidEnableKey(c) && Sound(c, d)
    ensures Independent(c, RouteQueue(c.routes, false, d))
  {
    var r := RouteQueue(c.routes, false, d);
    RoutesOnce(c, c.routes, d, ListAdd);
    RoutesOnce(c, c.routes, d, ListDel);
    RouteQueueWrites(c, c.routes, d);
    assert forall i | 0 <= i < |r| :: r[i] in r;
    WritesIndependent(c, r, CarriedPairs(c.routes, ListAdd, Pairs(d.listAdd)), CarriedPairs(c.routes, ListDel, Pairs(d.listDel)));
  }

  /** On a missing object the add request comes first; the requests after it may come in
      any order. */
  lemma AnyOrderAfterAdd(c: Client, st: State, want: Slice, rest: seq<Request>)
    requires Setting(c, st, want, None) && !RemovesObject(st, want)
    requires var q := Queue(c, st, false, want, None); q != [] && multiset(rest) == multiset(q[1..])
    ensures var q := Queue(c, st, false, want, None);
      && q[0].meth == Add
      && ServeAll(c, None, [q[0]] + rest) == ServeAll(c, None, q)
  {
    SettingGives(c, st, want, None);
    hide Setting, ValidNames, ValidRoutes, AllUnderstood, Sound, ComputeChanges, ExactlyOnce, Wanted, ValidEnableKey;
    hide RouteQueue, ChangedItem, Independent, EditOf;
    var q := Queue(c, st, false, want, None);
    var d := DeltaOf(c, st, want, None);
    var add := BaseRequest(c, d, true);
    var r := RouteQueue(c.routes, false, d);
    assert q == [add] + r && q[1..] == r;
    MembersIndependent(c, d);
    ServeOne(c, None, add);
    var made := Serve(c, None, add).obj.value;
    OrderIrrelevant(c, r, rest, made);
    ServeAppend(c, None, [add], r);
    ServeAppend(c, None, [add], rest);
  }
}
