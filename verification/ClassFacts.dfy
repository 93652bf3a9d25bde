/** What the tables of the four client classes come to in a run. */
module ClassFacts {
  import opened Strings
  import opened IpaModel
  import opened Canonical
  import opened Requests
  import opened Theorems
  import opened Keys
  import opened Clients
  import opened EndToEnd

  // ---------- which scalars are written ----------

  /** All parameters but the object's key are attributes of it, and every scalar one goes with the
      add and mod requests, the switch apart. */
  ghost predicate AllWritten(c: Client, key: string) {
    forall k | k in c.paramData ::
      && (Known(c, k) <==> k != key)
      && (k != key && !IsList(c, k) ==> (k in c.baseKeys <==> c.enableKey != Some(k)))
  }

  lemma EveryScalarWritten()
    ensures AllWritten(GROUP, "cn") && AllWritten(CAACL, "cn") && AllWritten(SERVICE, "krbcanonicalname") && AllWritten(USER, "uid")
  {
    GroupWritten();
    CaaclWritten();
    ServiceWritten();
    UserWritten();
    hide AllWritten;
  }

  lemma GroupWritten() ensures AllWritten(GROUP, "cn") { hide STANDARD, GROUP_ROUTES; }

  lemma CaaclWritten() ensures AllWritten(CAACL, "cn") { hide STANDARD, CAACL_ROUTES; }

  lemma ServiceWritten()
    ensures AllWritten(SERVICE, "krbcanonicalname")
  {
    hide STANDARD, SERVICE_ROUTES, SERVICE_DEFAULTS, SERVICE_STRS, SERVICE_FLAGS, SERVICE_LISTS;
  }

  lemma UserWritten()
    ensures AllWritten(USER, "uid")
  {
    hide STANDARD, USER_ROUTES, USER_STRS, USER_LISTS;
    UserApart();
  }

  /** Which parameters are numbers, booleans and lists; the others are strings. */
  ghost predicate TypesAre(c: Client, ints: set<string>, bools: set<string>, lists: set<string>) {
    && ints + bools + lists <= c.paramData.Keys
    && forall k | k in c.paramData ::
         c.paramData[k] == if k in lists then TList else if k in ints then TInt else if k in bools then TBool else TStr
  }

  lemma TypesOfParams()
    ensures TypesAre(GROUP, {"gidnumber"}, {"nonposix", "external"}, {"member_group", "member_user"})
    ensures TypesAre(CAACL, {}, {"ipaenabledflag"}, {"user", "group", "host", "hostgroup", "service", "certprofile", "ca"})
    ensures TypesAre(SERVICE, {}, {"ipakrbrequirespreauth", "ipakrbokasdelegate", "ipakrboktoauthasdelegate"}, SERVICE_LISTS)
    ensures TypesAre(USER, {"gidnumber"}, {"nsaccountlock"}, USER_LISTS)
  {
    GroupTypes();
    CaaclTypes();
    ServiceTypes();
    UserTypes();
    hide TypesAre;
  }

  lemma GroupTypes()
    ensures TypesAre(GROUP, {"gidnumber"}, {"nonposix", "external"}, {"member_group", "member_user"})
  {
    hide STANDARD, GROUP_ROUTES;
  }

  lemma CaaclTypes()
    ensures TypesAre(CAACL, {}, {"ipaenabledflag"}, {"user", "group", "host", "hostgroup", "service", "certprofile", "ca"})
  {
    hide STANDARD, CAACL_ROUTES;
  }

  lemma ServiceTypes()
    ensures TypesAre(SERVICE, {}, {"ipakrbrequirespreauth", "ipakrbokasdelegate", "ipakrboktoauthasdelegate"}, SERVICE_LISTS)
  {
    hide STANDARD, SERVICE_ROUTES, SERVICE_DEFAULTS, SERVICE_STRS, SERVICE_LISTS;
  }

  lemma UserTypes()
    ensures TypesAre(USER, {"gidnumber"}, {"nsaccountlock"}, USER_LISTS)
  {
    hide STANDARD, USER_ROUTES, USER_STRS, USER_LISTS;
  }

  // ---------- which member changes check mode reports ----------

  /** The delta has values of `k` to add or to remove. */
  predicate Touches(d: Delta, k: string) { k in d.listAdd || k in d.listDel }

  /** Changes of members count for groups and access rules, of users only their certificates,
      and of services none: check mode does not report the others. */
  lemma MembersThatMark(d: Delta)
    ensures Marked(GROUP.routes, d) <==> exists k | k in GROUP_LISTS :: Touches(d, k)
    ensures Marked(CAACL.routes, d) <==> exists k | k in CAACL_LISTS :: Touches(d, k)
    ensures Marked(USER.routes, d) <==> Touches(d, "usercertificate")
    ensures !Marked(SERVICE.routes, d)
  {
    GroupMarks(d);
    CaaclMarks(d);
    UserMarks(d);
    ServiceMarks(d);
    hide Marked, Touches;
  }

  lemma GroupMarks(d: Delta)
    ensures Marked(GROUP.routes, d) <==> exists k | k in GROUP_LISTS :: Touches(d, k)
  {
    assert GROUP_FIELDS.Keys == GROUP_LISTS;
    if k :| k in GROUP_LISTS && Touches(d, k) {
      assert RouteActive(GROUP_ROUTES[if k in d.listAdd then 0 else 1], d);
    }
    if i :| 0 <= i < 2 && RouteActive(GROUP_ROUTES[i], d) {
      var a :| a in GROUP_ROUTES[i].fields && a in FromList(d, GROUP_ROUTES[i].from);
      assert Touches(d, a);
    }
  }

  lemma CaaclMarks(d: Delta)
    ensures Marked(CAACL.routes, d) <==> exists k | k in CAACL_LISTS :: Touches(d, k)
  {
    hide CAACL_LISTS;
    CaaclLists();
    if k :| k in CAACL_LISTS && Touches(d, k) {
      var t := TableOf(k);
      var i := if k in d.listAdd then t else t + 5;
      assert CAACL_ROUTES[i] == CaaclRow(i) && CaaclRow(i).marks && k in CaaclRow(i).fields;
      assert RouteActive(CAACL_ROUTES[i], d);
    }
    if i :| 0 <= i < 10 && RouteActive(CAACL_ROUTES[i], d) {
      var a :| a in CAACL_ROUTES[i].fields && a in FromList(d, CAACL_ROUTES[i].from);
      assert CAACL_ROUTES[i] == CaaclRow(i);
      ItemKeys(CAACL_ITEMS[if i < 5 then i else i - 5]);
      assert a in CAACL_LISTS && Touches(d, a);
    }
  }

  lemma UserMarks(d: Delta)
    ensures Marked(USER.routes, d) <==> Touches(d, "usercertificate")
  {
    hide USER, USER_ROUTES, RouteActive;
    UserTable();
    CertRowActive(USER_ROUTES[0], d);
    CertRowActive(USER_ROUTES[1], d);
  }

  lemma UserTable()
    ensures USER.routes == USER_ROUTES && |USER_ROUTES| == 4
    ensures forall i | 0 <= i < 2 :: USER_ROUTES[i].marks && USER_ROUTES[i].fields.Keys == {"usercertificate"}
    ensures USER_ROUTES[0].from == ListAdd && USER_ROUTES[1].from == ListDel
    ensures !USER_ROUTES[2].marks && !USER_ROUTES[3].marks
  {
    hide USER_STRS, USER_LISTS, STANDARD;
    assert forall i | 0 <= i < 4 :: USER_ROUTES[i] == UserRow(i / 2, InTurn(i));
  }

  lemma CertRowActive(rt: Route, d: Delta)
    requires rt.fields.Keys == {"usercertificate"}
    ensures RouteActive(rt, d) <==> "usercertificate" in FromList(d, rt.from)
  {
    assert "usercertificate" in rt.fields;
  }

  lemma ServiceMarks(d: Delta)
    ensures !Marked(SERVICE.routes, d)
  {
    hide STANDARD, SERVICE_STRS, SERVICE_FLAGS, SERVICE_LISTS, SERVICE_DEFAULTS;
  }

  // ---------- defaults ----------

  /** An `exact` run sets the ticket flags of a service to what was given, and those that were
      not given to the API's defaults: pre-authentication on, both kinds of delegation off. */
  lemma ServiceFlagsReached(params: Dict, o: Option<Obj>)
    requires TypedParams(SERVICE, params) && CanonParams(SERVICE, Exact, params).Some?
    requires Runnable(SERVICE, Exact, WantedFrom(SERVICE, Exact, params), o)
    ensures var now := After(SERVICE, Exact, WantedFrom(SERVICE, Exact, params), o);
      forall k, standard | (k, standard) in
          {("ipakrbrequirespreauth", true), ("ipakrbokasdelegate", false), ("ipakrboktoauthasdelegate", false)} ::
        && (!WasGiven(SERVICE, params, k) ==> k in now.scalars && now.scalars[k] == Bool(standard))
        && forall b | k in params && params[k] == One(Bool(b)) :: k in now.scalars && now.scalars[k] == Bool(b)
  {
    hide SERVICE, TypedParams, CanonParams, Runnable, After, WantedFrom, WasGiven, ValidClient, KnownScalar, KnownList;
    ServiceValid();
    FlagDefaults();
    GivenReached(SERVICE, Exact, params, o);
  }

  lemma FlagDefaults()
    ensures forall k, standard | (k, standard) in
        {("ipakrbrequirespreauth", true), ("ipakrbokasdelegate", false), ("ipakrboktoauthasdelegate", false)} ::
      && k in SERVICE.defaults && SERVICE.defaults[k] == Bool(standard) && k in SERVICE.baseKeys
      && KnownScalar(SERVICE, k) && SERVICE.paramData[k] == TBool
  {
    hide STANDARD, SERVICE_ROUTES;
    ServiceFlags();
    ServiceStandard();
  }
}
