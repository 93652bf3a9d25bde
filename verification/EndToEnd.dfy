/** Several runs of the client object, one after the other, against one server. */
module EndToEnd {
  import opened Strings
  import opened IpaModel
  import opened Canonical
  import opened Changes
  import opened Requests
  import opened QueueEffect
  import opened Convergence
  import opened Runs
  import opened Theorems
  import opened Absence
  import opened Replies
  import opened Keys
  import opened Clients
  import opened IpaClient

  ghost function WantedFrom(c: Client, st: State, params: Dict): Slice
    requires CanonParams(c, st, params).Some?
  {
    Canonical.GetSlice(c, CanonParams(c, st, params).value)
  }

  /** The server's reply stands for what it holds. */
  ghost predicate Speaks(c: Client, params: Dict, render: Obj -> Dict, o: Option<Obj>) {
    Represents(c, params, match o case None => map[] case Some(x) => render(x), o)
  }

  /** What one run leaves, and what it posts. */
  ghost function Leaves(c: Client, st: State, want: Slice, o: Option<Obj>): Option<Obj> {
    match Run(c, st, false, want, o) case Done(o1, _, _) => o1 case Failed => o
  }

  ghost function Posts(c: Client, st: State, want: Slice, o: Option<Obj>): seq<Request> {
    match Run(c, st, false, want, o)
    case Done(_, q, _) => [FIND_REQUEST] + q
    case Failed => Refusal(Queue(c, st, false, want, o))
  }

  /** One run of a new client. */
  method RunOnce(c: Client, st: State, params: Dict, server: Server) returns (ok: bool)
    requires ValidClient(c) && server.c == c && (st in {Enabled, Disabled} ==> c.enableKey.Some?)
    requires TypedParams(c, params) && CanonParams(c, st, params).Some?
    requires server.obj.Some? ==> WellTyped(c, server.obj.value)
    requires Speaks(c, params, server.render, server.obj)
    modifies server
    ensures ok <==> Run(c, st, false, WantedFrom(c, st, params), old(server.obj)).Done?
    ensures server.obj == Leaves(c, st, WantedFrom(c, st, params), old(server.obj))
    ensures server.log == old(server.log) + Posts(c, st, WantedFrom(c, st, params), old(server.obj))
  {
    hide ValidClient, TypedParams, CanonParams, Represents, Run, Queue, Canonical.GetSlice, WellTyped, Refusal;
    var client := new IPAClient(c, st, false, params, server);
    ok := client.Ensure();
  }

  /** A `present` or `exact` run on whatever is there, and the same run again: the first
      reaches its goal, and all the second one posts is `find`. */
  method RunTwice(c: Client, st: State, params: Dict, server: Server)
    requires ValidClient(c) && server.c == c && st in {Present, Exact}
    requires TypedParams(c, params) && CanonParams(c, st, params).Some?
    requires server.obj.Some? ==> WellTyped(c, server.obj.value)
    requires Runnable(c, st, WantedFrom(c, st, params), server.obj)
    requires Speaks(c, params, server.render, server.obj)
    requires Speaks(c, params, server.render, Some(After(c, st, WantedFrom(c, st, params), server.obj)))
    modifies server
    ensures server.obj == Some(After(c, st, WantedFrom(c, st, params), old(server.obj)))
    ensures AtGoal(c, st, WantedFrom(c, st, params), server.obj.value)
    ensures server.log == old(server.log) + [FIND_REQUEST]
      + Queue(c, st, false, WantedFrom(c, st, params), old(server.obj)) + [FIND_REQUEST]
  {
    hide ValidClient, TypedParams, CanonParams, Speaks, Run, Queue, Canonical.GetSlice, WellTyped;
    ghost var want := WantedFrom(c, st, params);
    ghost var before := server.obj;
    RunGives(c, st, want, before);
    var ok := RunOnce(c, st, params, server);
    ghost var now := After(c, st, want, before);
    GoalReached(c, st, want, before);
    StaysTyped(c, st, want, before);
    SecondRunSilent(c, st, want, before);
    ok := RunOnce(c, st, params, server);
    assert server.log == old(server.log) + [FIND_REQUEST] + Queue(c, st, false, want, before) + [FIND_REQUEST] + [];
  }

  lemma RunGives(c: Client, st: State, want: Slice, o: Option<Obj>)
    requires Runnable(c, st, want, o)
    ensures var q := Queue(c, st, false, want, o);
      Run(c, st, false, want, o) == Done(Some(After(c, st, want, o)), q, q != [] || MarksChanged(c, st, want, o))
  {
    RunReaches(c, st, want, o);
    RunIs(c, st, false, want, o);
    hide Queue, Setting;
  }

  /** What the parameters say is what a `present` or `exact` run leaves: base scalars with the
      values given, before any default; lists with at least, and under `exact` exactly, the
      values given; and under `exact` defaults for base scalars that were not given, and no
      value of a list that was not. */
  lemma GivenReached(c: Client, st: State, params: Dict, o: Option<Obj>)
    requires ValidClient(c) && st in {Present, Exact}
    requires TypedParams(c, params) && CanonParams(c, st, params).Some?
    requires Runnable(c, st, WantedFrom(c, st, params), o)
    ensures var now := After(c, st, WantedFrom(c, st, params), o);
      && (forall k | k in params && KnownScalar(c, k) && k in c.baseKeys && params[k].One? && Typed(c.paramData[k], params[k].a) ::
            k in now.scalars && now.scalars[k] == params[k].a)
      && (forall k | k in params && KnownList(c, k) && params[k].Many? && params[k].xs != [] && params[k].xs[0] != Null ::
            if st == Exact then Values(now.pairs, k) == Elems(params[k].xs) else Elems(params[k].xs) <= Values(now.pairs, k))
      && (st == Exact ==>
            && (forall k | k in c.defaults && k in c.baseKeys && !WasGiven(c, params, k) ::
                  k in now.scalars && now.scalars[k] == c.defaults[k])
            && (forall k | KnownList(c, k) && !WasGiven(c, params, k) :: Values(now.pairs, k) == {}))
  {
    hide ValidClient, TypedParams, CanonParams, Canonical.GetSlice, WellTyped, Runnable, After, EnableMet, WasGiven, Known, IsList,
         Values, Elems;
    ClientParts(c);
    var want := WantedFrom(c, st, params);
    var now := After(c, st, want, o);
    WantedIs(c, st, params);
    GoalReached(c, st, want, o);
    forall k | KnownList(c, k)
      ensures k in want.lists ==> want.lists[k] <= Values(now.pairs, k) && (st == Exact ==> want.lists[k] == Values(now.pairs, k))
      ensures k !in want.lists && st == Exact ==> Values(now.pairs, k) == {}
    {
      ListReached(c, st, want, now, k);
    }
    hide ListsMet;
    NoListDefaults(c);
    RunnableGives(c, st, want, o);
    WantedFacts(c, st, want);
  }

  lemma NoListDefaults(c: Client)
    requires ValidDefaults(c)
    ensures forall k | KnownList(c, k) :: k !in c.defaults
  {
  }

  lemma ListReached(c: Client, st: State, want: Slice, o: Obj, k: string)
    requires ListsMet(c, st, want, o) && KnownList(c, k)
    ensures k in want.lists ==> want.lists[k] <= Values(o.pairs, k) && (st == Exact ==> want.lists[k] == Values(o.pairs, k))
    ensures k !in want.lists && st == Exact ==> Values(o.pairs, k) == {}
  {
    forall v ensures v in Values(o.pairs, k) <==> (k, v) in o.pairs { ValuesOf(o.pairs, k, v); }
    forall v ensures (k, v) in Pairs(want.lists) <==> k in want.lists && v in want.lists[k] { }
    assert forall p | p in (set x | x in o.pairs && KnownList(c, x.0)) :: p in o.pairs;
    forall v | (k, v) in o.pairs && st == Exact ensures (k, v) in Pairs(want.lists) {
      assert (k, v) in set x | x in o.pairs && KnownList(c, x.0);
    }
  }

  // ---------- servers that answer in a spelling the client undoes ----------

  /** Whatever the object becomes, the server's reply stands for it. */
  ghost predicate Renders(c: Client, params: Dict, render: Obj -> Dict) {
    forall o | WellTyped(c, o) :: Represents(c, params, render(o), Some(o))
  }

  lemma Answered(c: Client, params: Dict, render: Obj -> Dict, o: Option<Obj>)
    requires Renders(c, params, render) && (o.Some? ==> WellTyped(c, o.value))
    ensures Speaks(c, params, render, o)
  {
    if o.None? { MissingReply(c, params); }
    hide Represents;
  }

  /** group: values wrapped in lists and written as strings. */
  lemma GroupRenders(params: Dict, extra: Dict, render: Obj -> Dict)
    requires Foreign(GROUP, extra) && forall o :: render(o) == WireReply(GROUP, o, extra)
    ensures Renders(GROUP, params, render)
  {
    hide GROUP, Represents, Foreign, WireReply, WellTyped;
    forall o | WellTyped(GROUP, o) ensures Represents(GROUP, params, render(o), Some(o)) {
      GroupReply(params, o, extra);
    }
  }

  /** caacl: the same with the long member keys. */
  lemma CaaclRenders(params: Dict, extra: Dict, render: Obj -> Dict)
    requires Foreign(CAACL, extra) && PlainKeys(extra)
    requires forall o :: render(o) == CaaclReply(View(CAACL, o), extra)
    ensures Renders(CAACL, params, render)
  {
    hide CAACL, Represents, Foreign, CaaclReply, WellTyped, View, PlainKeys;
    forall o | WellTyped(CAACL, o) ensures Represents(CAACL, params, render(o), Some(o)) {
      CaaclRecovered(params, o, extra);
    }
  }

  /** service: the certificate wrapped, the canonical name among the aliases. */
  lemma ServiceRenders(params: Dict, extra: Dict, render: Obj -> Dict)
    requires Foreign(SERVICE, extra) && CanonicalName(params).Str?
    requires forall o :: render(o) == ServiceSpelling(WireReply(SERVICE, o, extra), View(SERVICE, o), CanonicalName(params))
    ensures Renders(SERVICE, params, render)
  {
    hide SERVICE, Represents, Foreign, WireReply, ServiceSpelling, WellTyped, View, CanonicalName;
    GivenName(params);
    forall o | WellTyped(SERVICE, o) ensures Represents(SERVICE, params, render(o), Some(o)) {
      ServiceRecovered(params, o, extra, CanonicalName(params));
    }
  }

  /** The principals are names without a realm of their own. */
  ghost predicate BarePairs(ps: set<Pair>) {
    forall p | p in ps && p.0 == PRINCIPAL :: p.1.Str? && '@' !in p.1.s
  }

  /** user: the server adds the realm to the names and gives the canonical name bare. */
  ghost predicate UserServer(render: Obj -> Dict, extra: Dict, canonical: Atom, realm: string) {
    && Foreign(USER, extra) && canonical.Str? && '@' !in realm
    && forall o :: render(o) == UserWire(View(USER, o), extra, One(canonical), canonical, realm)
  }

  lemma UserSpeaks(params: Dict, render: Obj -> Dict, extra: Dict, canonical: Atom, realm: string, o: Option<Obj>)
    requires UserServer(render, extra, canonical, realm)
    requires o.Some? ==> WellTyped(USER, o.value) && BarePairs(o.value.pairs)
    ensures Speaks(USER, params, render, o)
  {
    if o.None? {
      MissingReply(USER, params);
      hide USER, Represents;
    } else {
      BareView(USER, o.value);
      hide USER, Represents, UserWire, View, Foreign, WellTyped, BareNames, BarePairs, Principal;
      UserRecovered(params, o.value, extra, One(canonical), canonical, realm);
    }
  }

  lemma BareView(c: Client, o: Obj)
    requires BarePairs(o.pairs)
    ensures BareNames(View(c, o))
  {
    if PRINCIPAL in View(c, o).lists {
      forall a | a in View(c, o).lists[PRINCIPAL] ensures a.Str? && '@' !in a.s {
        ValuesOf(o.pairs, PRINCIPAL, a);
        assert (PRINCIPAL, a).0 == PRINCIPAL;
      }
    }
  }

  // ---------- enabled and disabled ----------

  /** What three `enabled` or `disabled` runs come to: the server refuses them all, at the first
      request, and nothing happens; or the third one posts nothing but `find`, and the object is
      as the state asks, unless it shows nothing and has no members to gain. */
  ghost predicate ToggledThrice(c: Client, st: State, want: Slice, before: Option<Obj>, ok: bool, after: Option<Obj>,
                                posted: seq<Request>)
    requires Setting(c, st, want, before) && Toggles(st)
  {
    var q := Queue(c, st, false, want, before);
    && (ok <==> !(LooksAbsent(c, before) && WantsBase(c, want)))
    && (!ok ==> after == before && posted == Refusal(q) + Refusal(q) + Refusal(q))
    && (ok ==>
          && Runnable(c, st, want, before)
          && var once := After(c, st, want, before);
          && Runnable(c, st, want, Some(once))
          && after == Some(After(c, st, want, Some(once)))
          && posted == [FIND_REQUEST] + q + [FIND_REQUEST] + Queue(c, st, false, want, Some(once)) + [FIND_REQUEST]
          && (AtGoal(c, st, want, after.value) <==> !(LooksAbsent(c, before) && want.lists == map[])))
  }

  /** The server can answer for every object that such runs meet. */
  ghost predicate SpeaksToToggles(c: Client, st: State, params: Dict, want: Slice, render: Obj -> Dict, before: Option<Obj>)
    requires Setting(c, st, want, before) && Toggles(st)
  {
    && Speaks(c, params, render, before)
    && (Runnable(c, st, want, before) ==>
          var once := After(c, st, want, before);
          && Speaks(c, params, render, Some(once))
          && (Runnable(c, st, want, Some(once)) ==> Speaks(c, params, render, Some(After(c, st, want, Some(once))))))
  }

  method ToggleThrice(c: Client, st: State, params: Dict, server: Server) returns (ok: bool)
    requires ValidClient(c) && server.c == c && Toggles(st) && c.enableKey.Some?
    requires TypedParams(c, params) && CanonParams(c, st, params).Some?
    requires Setting(c, st, WantedFrom(c, st, params), server.obj)
    requires SpeaksToToggles(c, st, params, WantedFrom(c, st, params), server.render, server.obj)
    modifies server
    ensures exists posted ::
      && server.log == old(server.log) + posted
      && ToggledThrice(c, st, WantedFrom(c, st, params), old(server.obj), ok, server.obj, posted)
  {
    hide *;
    ghost var want := WantedFrom(c, st, params);
    ghost var before := server.obj;
    ghost var log := server.log;
    RunnableTyped(c, st, want, before);
    ThreeToggles(c, st, params, want, server.render, before);
    ghost var once := Leaves(c, st, want, before);
    ghost var twice := Leaves(c, st, want, once);
    ok := RunOnce(c, st, params, server);
    var again := RunOnce(c, st, params, server);
    again := RunOnce(c, st, params, server);
    assert server.log == log + (Posts(c, st, want, before) + Posts(c, st, want, once) + Posts(c, st, want, twice));
  }

  lemma ThreeToggles(c: Client, st: State, params: Dict, want: Slice, render: Obj -> Dict, o: Option<Obj>)
    requires Setting(c, st, want, o) && Toggles(st) && SpeaksToToggles(c, st, params, want, render, o)
    ensures var once := Leaves(c, st, want, o);
      var twice := Leaves(c, st, want, once);
      && (once.Some? ==> WellTyped(c, once.value)) && (twice.Some? ==> WellTyped(c, twice.value))
      && Speaks(c, params, render, o) && Speaks(c, params, render, once) && Speaks(c, params, render, twice)
      && ToggledThrice(c, st, want, o, Run(c, st, false, want, o).Done?, Leaves(c, st, want, twice),
                       Posts(c, st, want, o) + Posts(c, st, want, once) + Posts(c, st, want, twice))
  {
    hide Run, Queue, WellTyped, AtGoal, Setting, WantsBase, LooksAbsent, Speaks, Runnable, After, Refusal, Leaves, Posts;
    RunnableTyped(c, st, want, o);
    ToggleRuns(c, st, want, o);
    if Run(c, st, false, want, o) == Failed {
      FailedRun(c, st, want, o);
    } else {
      var once := After(c, st, want, o);
      var twice := After(c, st, want, Some(once));
      DoneRun(c, st, want, o);
      DoneRun(c, st, want, Some(once));
      DoneRun(c, st, want, Some(twice));
      assert [FIND_REQUEST] + [] == [FIND_REQUEST];
      assert Posts(c, st, want, o) + Posts(c, st, want, Some(once)) + Posts(c, st, want, Some(twice))
        == [FIND_REQUEST] + Queue(c, st, false, want, o) + [FIND_REQUEST] + Queue(c, st, false, want, Some(once)) + [FIND_REQUEST];
    }
  }

  lemma FailedRun(c: Client, st: State, want: Slice, o: Option<Obj>)
    requires Run(c, st, false, want, o) == Failed
    ensures Leaves(c, st, want, o) == o && Posts(c, st, want, o) == Refusal(Queue(c, st, false, want, o))
  {
    hide Run, Queue;
  }

  lemma DoneRun(c: Client, st: State, want: Slice, o: Option<Obj>)
    requires Run(c, st, false, want, o).Done?
    ensures var r := Run(c, st, false, want, o);
      Leaves(c, st, want, o) == r.obj && Posts(c, st, want, o) == [FIND_REQUEST] + r.queue
  {
    hide Run, Queue;
  }

  lemma ToggleRuns(c: Client, st: State, want: Slice, o: Option<Obj>)
    requires Setting(c, st, want, o) && Toggles(st)
    ensures var first := Run(c, st, false, want, o);
      && (first == Failed <==> LooksAbsent(c, o) && WantsBase(c, want))
      && (first.Done? ==>
            && Runnable(c, st, want, o)
            && var once := After(c, st, want, o);
            && first.obj == Some(once) && first.queue == Queue(c, st, false, want, o)
            && WellTyped(c, once) && Runnable(c, st, want, Some(once))
            && var twice := After(c, st, want, Some(once));
            && var second := Run(c, st, false, want, Some(once));
            && second.Done? && second.obj == Some(twice) && second.queue == Queue(c, st, false, want, Some(once))
            && WellTyped(c, twice)
            && (AtGoal(c, st, want, twice) <==> !(LooksAbsent(c, o) && want.lists == map[]))
            && Run(c, st, false, want, Some(twice)) == Done(Some(twice), [], false))
  {
    hide Run, Queue, WellTyped, AtGoal, Setting, WantsBase, LooksAbsent;
    EnableMachine(c, st, want, o);
    if Run(c, st, false, want, o) != Failed {
      var once := After(c, st, want, o);
      RunGives(c, st, want, o);
      StaysTyped(c, st, want, o);
      RunGives(c, st, want, Some(once));
      StaysTyped(c, st, want, Some(once));
    }
  }

  /** A server that answers for every object answers for those. */
  lemma RendersToToggles(c: Client, st: State, params: Dict, want: Slice, render: Obj -> Dict, before: Option<Obj>)
    requires Setting(c, st, want, before) && Toggles(st) && Renders(c, params, render)
    ensures SpeaksToToggles(c, st, params, want, render, before)
  {
    RunnableTyped(c, st, want, before);
    hide Setting, Renders, Speaks, Runnable, After, WellTyped;
    Answered(c, params, render, before);
    if Runnable(c, st, want, before) {
      var once := After(c, st, want, before);
      StaysTyped(c, st, want, before);
      Answered(c, params, render, Some(once));
      if Runnable(c, st, want, Some(once)) {
        StaysTyped(c, st, want, Some(once));
        Answered(c, params, render, Some(After(c, st, want, Some(once))));
      }
    }
  }

  lemma RunnableTyped(c: Client, st: State, want: Slice, o: Option<Obj>)
    requires Setting(c, st, want, o)
    ensures o.Some? ==> WellTyped(c, o.value)
  {
    hide WellTyped, Wanted, ValidClient;
  }

  /** Runs that want bare names keep the names bare. */
  lemma StaysBare(c: Client, st: State, want: Slice, o: Option<Obj>)
    requires Runnable(c, st, want, o)
    requires BarePairs(Pairs(want.lists)) && BarePairs(Start(c, o).pairs)
    ensures BarePairs(After(c, st, want, o).pairs)
  {
    hide Runnable, Pairs, After, Assign, EnableScalars, ScalarsAfter, Start;
    RunnableGives(c, st, want, o);
    AfterIs(c, st, want, o);
  }

  lemma StartBare(c: Client, o: Option<Obj>)
    requires o.Some? ==> BarePairs(o.value.pairs)
    ensures BarePairs(Start(c, o).pairs)
  {
  }

  /** Two `present` or `exact` runs on a user with bare names. */
  method UserTwice(st: State, params: Dict, server: Server, ghost extra: Dict, ghost canonical: Atom, ghost realm: string)
    requires server.c == USER && st in {Present, Exact}
    requires TypedParams(USER, params) && CanonParams(USER, st, params).Some?
    requires UserServer(server.render, extra, canonical, realm)
    requires server.obj.Some? ==> WellTyped(USER, server.obj.value) && BarePairs(server.obj.value.pairs)
    requires Runnable(USER, st, WantedFrom(USER, st, params), server.obj)
    requires BarePairs(Pairs(WantedFrom(USER, st, params).lists))
    modifies server
    ensures var want := WantedFrom(USER, st, params);
      && server.obj == Some(After(USER, st, want, old(server.obj))) && AtGoal(USER, st, want, server.obj.value)
      && server.log == old(server.log) + [FIND_REQUEST] + Queue(USER, st, false, want, old(server.obj)) + [FIND_REQUEST]
  {
    hide USER, ValidClient, TypedParams, CanonParams, WellTyped, Setting, UserServer, BarePairs, Pairs, WantedFrom, Speaks,
         Runnable, After, AtGoal, Queue;
    UserValid();
    ghost var want := WantedFrom(USER, st, params);
    ghost var before := server.obj;
    StartBare(USER, before);
    StaysTyped(USER, st, want, before);
    StaysBare(USER, st, want, before);
    UserSpeaks(params, server.render, extra, canonical, realm, before);
    UserSpeaks(params, server.render, extra, canonical, realm, Some(After(USER, st, want, before)));
    RunTwice(USER, st, params, server);
  }

  /** Three `enabled` or `disabled` runs on a user with bare names; a user's enable key means the
      opposite. */
  method ToggleUser(st: State, params: Dict, server: Server, ghost extra: Dict, ghost canonical: Atom, ghost realm: string)
    returns (ok: bool)
    requires server.c == USER && Toggles(st)
    requires TypedParams(USER, params) && CanonParams(USER, st, params).Some?
    requires UserServer(server.render, extra, canonical, realm)
    requires server.obj.Some? ==> WellTyped(USER, server.obj.value) && BarePairs(server.obj.value.pairs)
    requires BarePairs(Pairs(WantedFrom(USER, st, params).lists))
    modifies server
    ensures Setting(USER, st, WantedFrom(USER, st, params), old(server.obj))
    ensures exists posted ::
      && server.log == old(server.log) + posted
      && ToggledThrice(USER, st, WantedFrom(USER, st, params), old(server.obj), ok, server.obj, posted)
  {
    hide USER, ValidClient, TypedParams, CanonParams, WellTyped, Setting, UserServer, BarePairs, Pairs, WantedFrom,
         SpeaksToToggles, ToggledThrice;
    UserValid();
    UserToggles();
    ghost var want := WantedFrom(USER, st, params);
    ghost var before := server.obj;
    FromParams(USER, st, params, before);
    UserSpeaksToToggles(st, params, want, server.render, extra, canonical, realm, before);
    ok := ToggleThrice(USER, st, params, server);
  }

  lemma UserToggles()
    ensures USER.enableKey.Some? && USER.inverted
  {
  }

  lemma FromParams(c: Client, st: State, params: Dict, o: Option<Obj>)
    requires ValidClient(c) && TypedParams(c, params) && CanonParams(c, st, params).Some?
    requires Toggles(st) ==> c.enableKey.Some?
    requires o.Some? ==> WellTyped(c, o.value)
    ensures Setting(c, st, WantedFrom(c, st, params), o)
  {
    hide ValidClient, TypedParams, CanonParams, WellTyped, Setting, Shaped, ValidNames, AllUnderstood, DeltaOf;
    EnsureFacts(c, st, params, o);
  }

  lemma UserSpeaksToToggles(st: State, params: Dict, want: Slice, render: Obj -> Dict, extra: Dict, canonical: Atom,
                            realm: string, before: Option<Obj>)
    requires Setting(USER, st, want, before) && Toggles(st) && UserServer(render, extra, canonical, realm)
    requires before.Some? ==> WellTyped(USER, before.value) && BarePairs(before.value.pairs)
    requires BarePairs(Pairs(want.lists))
    ensures SpeaksToToggles(USER, st, params, want, render, before)
  {
    hide USER, Setting, UserServer, Speaks, Runnable, After, WellTyped, BarePairs, Pairs;
    StartBare(USER, before);
    UserSpeaks(params, render, extra, canonical, realm, before);
    if Runnable(USER, st, want, before) {
      var once := After(USER, st, want, before);
      StaysTyped(USER, st, want, before);
      StaysBare(USER, st, want, before);
      UserSpeaks(params, render, extra, canonical, realm, Some(once));
      if Runnable(USER, st, want, Some(once)) {
        StaysTyped(USER, st, want, Some(once));
        StaysBare(USER, st, want, Some(once));
        UserSpeaks(params, render, extra, canonical, realm, Some(After(USER, st, want, Some(once))));
      }
    }
  }

  // ---------- absent ----------

  /** The object that `absent` with attributes leaves. */
  function Lessened(c: Client, want: Slice, o: Option<Obj>, named: set<Pair>): Obj {
    Obj(ScalarsWithout(c, want.scalars, Start(c, o).scalars), Start(c, o).pairs - named)
  }

  /** Two `absent` runs with attributes: the first takes what is named away, and the second one
      changes nothing more; it posts nothing but `find` exactly if no scalar was named with its
      own default. */
  method AbsentTwice(c: Client, params: Dict, server: Server)
    requires ValidClient(c) && server.c == c
    requires TypedParams(c, params) && CanonParams(c, Absent, params).Some? && WantedFrom(c, Absent, params) != NOTHING
    requires Setting(c, Absent, WantedFrom(c, Absent, params), server.obj)
    requires Speaks(c, params, server.render, server.obj)
    requires var want := WantedFrom(c, Absent, params);
      Speaks(c, params, server.render, Some(Lessened(c, want, server.obj, Pairs(want.lists))))
    modifies server
    ensures var want := WantedFrom(c, Absent, params);
      var now := Some(Lessened(c, want, old(server.obj), Pairs(want.lists)));
      && server.obj == now
      && server.log == old(server.log) + [FIND_REQUEST] + Queue(c, Absent, false, want, old(server.obj))
           + [FIND_REQUEST] + Queue(c, Absent, false, want, now)
      && (Queue(c, Absent, false, want, now) == [] <==>
            !ResetsToItself(c, want.scalars, Start(c, old(server.obj)).scalars))
  {
    hide *;
    ghost var want := WantedFrom(c, Absent, params);
    ghost var before := server.obj;
    RunnableTyped(c, Absent, want, before);
    AbsentRunTwice(c, want, before);
    DoneRun(c, Absent, want, before);
    DoneRun(c, Absent, want, Some(Lessened(c, want, before, Pairs(want.lists))));
    var ok := RunOnce(c, Absent, params, server);
    ok := RunOnce(c, Absent, params, server);
  }

  lemma AbsentRunTwice(c: Client, want: Slice, o: Option<Obj>)
    requires Setting(c, Absent, want, o) && want != NOTHING
    ensures var first := Run(c, Absent, false, want, o);
      var now := Lessened(c, want, o, Pairs(want.lists));
      && first.Done? && first.obj == Some(now) && WellTyped(c, now) && first.queue == Queue(c, Absent, false, want, o)
      && var second := Run(c, Absent, false, want, Some(now));
      && second.Done? && second.obj == Some(now) && second.queue == Queue(c, Absent, false, want, Some(now))
      && (second.queue == [] <==> !ResetsToItself(c, want.scalars, Start(c, o).scalars))
  {
    AbsentSecondRun(c, want, o);
    AbsentAttributes(c, want, o);
    AbsentStaysTyped(c, want, o);
    LessenedTwice(c, want, o, Pairs(want.lists));
    var now := Lessened(c, want, o, Pairs(want.lists));
    hide Run, Queue, WellTyped, ResetsToItself, ScalarsWithout, ValidClient, Wanted, Pairs;
    QueueRun(c, want, o);
    AbsentAttributes(c, want, Some(now));
    SecondQueue(c, want, Some(now));
  }

  lemma LessenedTwice(c: Client, want: Slice, o: Option<Obj>, named: set<Pair>)
    ensures var now := Lessened(c, want, o, named);
      Lessened(c, want, Some(now), named) == now
  {
    var now := Lessened(c, want, o, named);
    var again := ScalarsWithout(c, want.scalars, now.scalars);
    assert again == now.scalars;
    assert now.pairs - named == now.pairs;
  }

  lemma QueueRun(c: Client, want: Slice, o: Option<Obj>)
    ensures Run(c, Absent, false, want, o).Done? ==> Run(c, Absent, false, want, o).queue == Queue(c, Absent, false, want, o)
  {
    hide Queue;
  }

  /** A run is silent exactly if its queue is empty. */
  lemma SecondQueue(c: Client, want: Slice, o: Option<Obj>)
    requires Setting(c, Absent, want, o) && o.Some? && want != NOTHING
    ensures Run(c, Absent, false, want, o) == Done(o, [], false) <==> Queue(c, Absent, false, want, o) == []
    ensures Run(c, Absent, false, want, o).Done? ==> Run(c, Absent, false, want, o).queue == Queue(c, Absent, false, want, o)
    ensures Run(c, Absent, false, want, o).Done?
  {
    RefusedIff(c, Absent, want, o);
    if Queue(c, Absent, false, want, o) == [] { EmptyQueueIsSilent(c, Absent, want, o.value); }
    hide Queue, Setting;
  }

  /** The same two runs on a user with bare names: the second one is always silent, since no
      base attribute of a user has a default. */
  method AbsentUser(params: Dict, server: Server, ghost extra: Dict, ghost canonical: Atom, ghost realm: string)
    requires server.c == USER
    requires TypedParams(USER, params) && CanonParams(USER, Absent, params).Some? && WantedFrom(USER, Absent, params) != NOTHING
    requires UserServer(server.render, extra, canonical, realm)
    requires server.obj.Some? ==> WellTyped(USER, server.obj.value) && BarePairs(server.obj.value.pairs)
    modifies server
    ensures var want := WantedFrom(USER, Absent, params);
      && server.obj == Some(Lessened(USER, want, old(server.obj), Pairs(want.lists)))
      && server.log == old(server.log) + [FIND_REQUEST] + Queue(USER, Absent, false, want, old(server.obj)) + [FIND_REQUEST]
  {
    hide USER, ValidClient, TypedParams, CanonParams, WellTyped, Setting, UserServer, BarePairs, Pairs, WantedFrom, Shaped,
         ValidNames, AllUnderstood, DeltaOf, Queue, Lessened, Speaks, ResetsToItself, Run;
    UserValid();
    ghost var want := WantedFrom(USER, Absent, params);
    ghost var before := server.obj;
    ghost var log := server.log;
    LessenedBare(USER, want, before, Pairs(want.lists));
    FromParams(USER, Absent, params, before);
    SettingWants(USER, Absent, want, before);
    UserResetsNothing(want.scalars, Start(USER, before).scalars);
    AbsentRunTwice(USER, want, before);
    UserSpeaks(params, server.render, extra, canonical, realm, before);
    UserSpeaks(params, server.render, extra, canonical, realm, Some(Lessened(USER, want, before, Pairs(want.lists))));
    AbsentTwice(USER, params, server);
    assert log + [FIND_REQUEST] + Queue(USER, Absent, false, want, before) + [FIND_REQUEST] + []
      == log + [FIND_REQUEST] + Queue(USER, Absent, false, want, before) + [FIND_REQUEST];
  }

  lemma LessenedBare(c: Client, want: Slice, o: Option<Obj>, named: set<Pair>)
    requires o.Some? ==> BarePairs(o.value.pairs)
    ensures BarePairs(Lessened(c, want, o, named).pairs)
  {
  }

  lemma SettingWants(c: Client, st: State, want: Slice, o: Option<Obj>)
    requires Setting(c, st, want, o)
    ensures forall k | k in want.scalars :: want.scalars[k] != Null
  {
    hide ValidClient, WellTyped;
  }

  lemma UserDefaultsApart()
    ensures USER.defaults.Keys !! USER.baseKeys
  {
    hide USER_BASE, USER_ROUTES, USER_STRS, USER_LISTS;
    UserStandardBase();
    UserApart();
    assert USER.defaults.Keys == STANDARD.Keys + {"nsaccountlock"};
    assert STANDARD.Keys == STANDARD_KEYS;
  }

  lemma UserResetsNothing(want: Scalars, have: Scalars)
    requires forall k | k in want :: want[k] != Null
    ensures !ResetsToItself(USER, want, have)
  {
    UserDefaultsApart();
    hide USER;
    forall k | k in want && Matches(USER, want, have, k) ensures Default(USER, k) != want[k] {
      assert k !in USER.defaults;
    }
  }
}
