/** The client classes of lib/modules: their parameters and tables, and that the engine's
    conditions hold of each of them. */
module Clients {
  import opened Strings
  import opened IpaModel
  import opened Canonical
  import opened Rewrite
  import opened IpaServer
  import opened Requests
  import opened Keys

  /** The defaults of the standard parameters. */
  const STANDARD: Scalars :=
    map["state" := Str("present"), "ipa_prot" := Str("https"), "ipa_host" := Str("ipa.example.com"),
        "ipa_port" := Int(443), "ipa_user" := Str("admin"), "validate_certs" := Bool(true)]

  /** A `kw_args` dict, by the types of its parameters. */
  function Params(strs: set<string>, ints: set<string>, bools: set<string>, lists: set<string>): map<string, PType> {
    map k | k in strs + ints + bools + lists ::
      if k in lists then TList else if k in ints then TInt else if k in bools then TBool else TStr
  }

  function Same(ks: set<string>): map<string, string> { map k | k in ks :: k }

  // ---------- group ----------

  const GROUP_FIELDS: map<string, string> := map["member_user" := "user", "member_group" := "group"]
  const GROUP_ROUTES: seq<Route> :=
    [Route(ListAdd, GroupAddMember, GROUP_FIELDS, PlainItem, true),
     Route(ListDel, GroupRemoveMember, GROUP_FIELDS, PlainItem, true)]

  const GROUP := Client(Group,
    Params({"cn", "description"}, {"gidnumber"}, {"nonposix", "external"}, GROUP_LISTS),
    STANDARD, {"cn"}, GROUP_BASE, None, false, GROUP_ROUTES)

  // ---------- caacl ----------

  /** The attributes of one row, per method item. */
  function CaaclFields(m: CaaclMember): set<string> {
    match m
    case MUser => {"user", "group"}
    case MHost => {"host", "hostgroup"}
    case MProfile => {"certprofile"}
    case MCa => {"ca"}
    case MService => {"service"}
  }

  const CAACL_ITEMS: seq<CaaclMember> := [MUser, MHost, MProfile, MCa, MService]

  function CaaclRow(i: nat): Route
    requires i < 10
  {
    if i < 5 then Route(ListAdd, CaaclAdd(CAACL_ITEMS[i]), Same(CaaclFields(CAACL_ITEMS[i])), PlainItem, true)
    else Route(ListDel, CaaclRemove(CAACL_ITEMS[i - 5]), Same(CaaclFields(CAACL_ITEMS[i - 5])), PlainItem, true)
  }

  const CAACL_ROUTES: seq<Route> := seq(10, i requires 0 <= i < 10 => CaaclRow(i))

  const CAACL := Client(Caacl,
    Params({"cn", "description"}, {}, {"ipaenabledflag"}, CAACL_LISTS),
    STANDARD, {"cn"}, {"description"}, Some("ipaenabledflag"), false, CAACL_ROUTES)

  // ---------- service ----------

  const HOST_FIELDS: map<string, string> := map["managedby_host" := "host"]

  const WRITE_FIELDS: map<string, string> :=
    map["ipaallowedtoperform_write_keys_user" := "user", "ipaallowedtoperform_write_keys_group" := "group",
        "ipaallowedtoperform_write_keys_host" := "host", "ipaallowedtoperform_write_keys_hostgroup" := "hostgroup"]

  const READ_FIELDS: map<string, string> :=
    map["ipaallowedtoperform_read_keys_user" := "user", "ipaallowedtoperform_read_keys_group" := "group",
        "ipaallowedtoperform_read_keys_host" := "host", "ipaallowedtoperform_read_keys_hostgroup" := "hostgroup"]

  const SERVICE_DEFAULTS: Scalars :=
    map["ipakrbrequirespreauth" := Bool(true), "ipakrbokasdelegate" := Bool(false),
        "ipakrboktoauthasdelegate" := Bool(false)]

  /** `handle_managedby_host`, then the keytab table: writers, then readers. */
  function ServiceFields(t: nat): map<string, string> {
    if t == 0 then HOST_FIELDS else if t == 1 then WRITE_FIELDS else READ_FIELDS
  }

  function ServiceMethod(t: nat, dir: Direction): Method {
    if t == 0 then if dir == ListAdd then ServiceAddHost else ServiceRemoveHost
    else if t == 1 then if dir == ListAdd then ServiceAllowCreateKeytab else ServiceDisallowCreateKeytab
    else if dir == ListAdd then ServiceAllowRetrieveKeytab else ServiceDisallowRetrieveKeytab
  }

  /** Each table in turn, first `list_add`, then `list_del`. */
  function InTurn(i: nat): Direction { if i % 2 == 0 then ListAdd else ListDel }

  function ServiceRow(t: nat, dir: Direction): Route {
    Route(dir, ServiceMethod(t, dir), ServiceFields(t), PlainItem, false)
  }

  const SERVICE_ROUTES: seq<Route> := seq(6, i requires 0 <= i < 6 => ServiceRow(i / 2, InTurn(i)))

  const SERVICE := Client(Service,
    Params(SERVICE_STRS, {}, SERVICE_FLAGS, SERVICE_LISTS),
    STANDARD + SERVICE_DEFAULTS, {"krbcanonicalname"}, SERVICE_BASE, None, false, SERVICE_ROUTES)

  // ---------- user ----------

  /** `handle_cert`, then `handle_principal`. */
  function UserRow(t: nat, dir: Direction): Route {
    if t == 0 then
      Route(dir, if dir == ListAdd then UserAddCert else UserRemoveCert,
            map["usercertificate" := "usercertificate"], Base64Item, true)
    else
      Route(dir, if dir == ListAdd then UserAddPrincipal else UserRemovePrincipal,
            map["krbprincipalname" := ""], NameArgument, false)
  }

  const USER_ROUTES: seq<Route> := seq(4, i requires 0 <= i < 4 => UserRow(i / 2, InTurn(i)))

  const USER := Client(User,
    Params(USER_STRS + {"uid"}, {"gidnumber"}, {"nsaccountlock"}, USER_LISTS),
    STANDARD + map["nsaccountlock" := Bool(false)], {"uid"}, USER_BASE, Some("nsaccountlock"), true, USER_ROUTES)

  // ---------- what makes a class well formed, read off its key sets ----------

  ghost predicate HasRow(c: Client, kind: seq<nat>, t: nat, dir: Direction) {
    |kind| == |c.routes| && exists i | 0 <= i < |kind| :: kind[i] == t && c.routes[i].from == dir
  }

  ghost predicate InTable(tables: seq<set<string>>, k: string) {
    exists t | 0 <= t < |tables| :: k in tables[t]
  }

  /** `tables[kind[i]]` holds the attributes of row `i`; each table has one row in each
      direction, and the tables split the list attributes that are not base keys. */
  lemma TableRoutes(c: Client, lists: set<string>, tables: seq<set<string>>, kind: seq<nat>)
    requires AllUnderstood(c.routes) && |kind| == |c.routes|
    requires forall k :: KnownList(c, k) <==> k in lists
    requires forall i | 0 <= i < |kind| :: kind[i] < |tables| && c.routes[i].fields.Keys == tables[kind[i]]
    requires forall i, j | 0 <= i < j < |kind| && kind[i] == kind[j] :: c.routes[i].from != c.routes[j].from
    requires forall s, t | 0 <= s < t < |tables| :: tables[s] !! tables[t]
    requires forall t | 0 <= t < |tables| :: tables[t] <= lists - c.baseKeys
    requires forall k | k in lists - c.baseKeys :: InTable(tables, k)
    requires forall t | 0 <= t < |tables| :: HasRow(c, kind, t, ListAdd) && HasRow(c, kind, t, ListDel)
    ensures ValidRoutes(c)
  {
    hide Understood;
    forall i, j, k | 0 <= i < j < |c.routes| && k in c.routes[i].fields && k in c.routes[j].fields
      ensures c.routes[i].from != c.routes[j].from
    {
      assert k in tables[kind[i]] && k in tables[kind[j]];
      OneTable(tables, kind[i], kind[j], k);
    }
    forall i, k | 0 <= i < |c.routes| && k in c.routes[i].fields ensures KnownList(c, k) && k !in c.baseKeys {
      assert k in tables[kind[i]];
    }
    forall k | k in c.paramData && KnownList(c, k) && k !in c.baseKeys
      ensures Routed(c, ListAdd, k) && Routed(c, ListDel, k)
    {
      assert InTable(tables, k);
      var t :| 0 <= t < |tables| && k in tables[t];
      RoutedFrom(c, tables, kind, t, k, ListAdd);
      RoutedFrom(c, tables, kind, t, k, ListDel);
    }
  }

  lemma OneTable(tables: seq<set<string>>, s: nat, t: nat, k: string)
    requires s < |tables| && t < |tables| && k in tables[s] && k in tables[t]
    requires forall s, t | 0 <= s < t < |tables| :: tables[s] !! tables[t]
    ensures s == t
  {
  }

  lemma RoutedFrom(c: Client, tables: seq<set<string>>, kind: seq<nat>, t: nat, k: string, dir: Direction)
    requires HasRow(c, kind, t, dir) && t < |tables| && k in tables[t]
    requires forall i | 0 <= i < |kind| :: kind[i] < |tables| && c.routes[i].fields.Keys == tables[kind[i]]
    ensures Routed(c, dir, k)
  {
    var i :| 0 <= i < |kind| && kind[i] == t && c.routes[i].from == dir;
    assert k in c.routes[i].fields;
  }

  lemma RowAt(c: Client, kind: seq<nat>, i: nat)
    requires |kind| == |c.routes| && i < |kind|
    ensures HasRow(c, kind, kind[i], c.routes[i].from)
  {
  }

  /** Table `t` has its two rows one after the other, first `list_add`, then `list_del`. */
  ghost predicate RowPair(routes: seq<Route>, t: nat, attrs: set<string>) {
    && 2 * t + 1 < |routes|
    && routes[2 * t].fields.Keys == attrs && routes[2 * t].from == ListAdd
    && routes[2 * t + 1].fields.Keys == attrs && routes[2 * t + 1].from == ListDel
  }

  lemma PairedRow(routes: seq<Route>, tables: seq<set<string>>, i: nat)
    requires i < |routes| == 2 * |tables|
    requires forall t | 0 <= t < |tables| :: RowPair(routes, t, tables[t])
    ensures i / 2 < |tables| && routes[i].fields.Keys == tables[i / 2] && routes[i].from == InTurn(i)
  {
    var t := i / 2;
    assert RowPair(routes, t, tables[t]);
    if i % 2 == 0 { assert i == 2 * t; } else { assert i == 2 * t + 1; }
  }

  lemma TurnRoutes(c: Client, lists: set<string>, tables: seq<set<string>>)
    requires AllUnderstood(c.routes) && |c.routes| == 2 * |tables|
    requires forall k :: KnownList(c, k) <==> k in lists
    requires forall t | 0 <= t < |tables| :: RowPair(c.routes, t, tables[t])
    requires forall s, t | 0 <= s < t < |tables| :: tables[s] !! tables[t]
    requires forall t | 0 <= t < |tables| :: tables[t] <= lists - c.baseKeys
    requires forall k | k in lists - c.baseKeys :: InTable(tables, k)
    ensures ValidRoutes(c)
  {
    hide Understood, KnownList, ValidRoutes, InTable, HasRow, RowPair;
    var kind := TurnKinds(|c.routes|);
    TurnRows(c, tables);
    TurnApart(c, tables);
    forall t | 0 <= t < |tables| ensures HasRow(c, kind, t, ListAdd) && HasRow(c, kind, t, ListDel) {
      TurnHasRows(c, tables, t);
    }
    hide TurnKinds;
    TableRoutes(c, lists, tables, kind);
  }

  function TurnKinds(n: nat): (kind: seq<nat>)
    ensures |kind| == n
  {
    seq(n, i requires 0 <= i < n => i / 2)
  }

  lemma TurnRows(c: Client, tables: seq<set<string>>)
    requires |c.routes| == 2 * |tables| && forall t | 0 <= t < |tables| :: RowPair(c.routes, t, tables[t])
    ensures var kind := TurnKinds(|c.routes|);
      forall i | 0 <= i < |kind| :: kind[i] < |tables| && c.routes[i].fields.Keys == tables[kind[i]]
  {
    forall i | 0 <= i < |c.routes| ensures i / 2 < |tables| && c.routes[i].fields.Keys == tables[i / 2] {
      PairedRow(c.routes, tables, i);
    }
  }

  lemma TurnApart(c: Client, tables: seq<set<string>>)
    requires |c.routes| == 2 * |tables| && forall t | 0 <= t < |tables| :: RowPair(c.routes, t, tables[t])
    ensures var kind := TurnKinds(|c.routes|);
      forall i, j | 0 <= i < j < |kind| && kind[i] == kind[j] :: c.routes[i].from != c.routes[j].from
  {
    hide RowPair;
    forall i, j | 0 <= i < j < |c.routes| && i / 2 == j / 2 ensures c.routes[i].from != c.routes[j].from {
      assert j == i + 1 && i % 2 == 0;
      PairedRow(c.routes, tables, i);
      PairedRow(c.routes, tables, j);
    }
  }

  lemma TurnHasRows(c: Client, tables: seq<set<string>>, t: nat)
    requires |c.routes| == 2 * |tables| && t < |tables| && RowPair(c.routes, t, tables[t])
    ensures HasRow(c, TurnKinds(|c.routes|), t, ListAdd) && HasRow(c, TurnKinds(|c.routes|), t, ListDel)
  {
    RowAt(c, TurnKinds(|c.routes|), 2 * t);
    RowAt(c, TurnKinds(|c.routes|), 2 * t + 1);
  }

  lemma TableDefaults(c: Client, own: Scalars)
    requires c.defaults == STANDARD + own
    requires STANDARD_KEYS !! c.paramData.Keys && STANDARD_KEYS !! c.baseKeys && c.paramKeys <= c.paramData.Keys
    requires forall k | k in own ::
      own[k] != Null && Known(c, k) && !IsList(c, k) && Typed(c.paramData[k], own[k])
    ensures ValidDefaults(c)
  {
    assert STANDARD.Keys == STANDARD_KEYS;
    hide STANDARD_KEYS;
  }

  lemma GoodNames(c: Client)
    requires forall k | k in c.paramData :: GoodName(k)
    ensures ValidNames(c)
  {
  }

  // ---------- group ----------

  lemma GroupValid()
    ensures ValidClient(GROUP)
  {
    GroupNames();
    GroupDefaults();
    GroupRoutesValid();
    hide ValidRoutes, ValidDefaults, ValidNames, STANDARD, GROUP_ROUTES;
  }

  lemma GroupNames()
    ensures ValidNames(GROUP)
  {
    hide STANDARD, GROUP_ROUTES;
  }

  lemma GroupDefaults()
    ensures ValidDefaults(GROUP)
  {
    hide STANDARD, GROUP_ROUTES, ValidDefaults;
    TableDefaults(GROUP, map[]);
  }

  const GROUP_TABLES: seq<set<string>> := [GROUP_LISTS]

  lemma GroupRoutesValid()
    ensures ValidRoutes(GROUP)
  {
    GroupRowsOk();
    GroupKnown();
    GroupTables();
    hide AllUnderstood, GROUP_ROUTES, GROUP_TABLES, GROUP_LISTS, STANDARD, Params, KnownList, RowPair, InTable, ValidRoutes;
    TurnRoutes(GROUP, GROUP_LISTS, GROUP_TABLES);
  }

  lemma GroupTables()
    ensures |GROUP_TABLES| == 1 && GROUP_TABLES[0] <= GROUP_LISTS - GROUP_BASE
    ensures forall k | k in GROUP_LISTS - GROUP_BASE :: InTable(GROUP_TABLES, k)
  {
    assert GROUP_TABLES[0] == GROUP_LISTS;
  }

  lemma GroupRowsOk()
    ensures AllUnderstood(GROUP_ROUTES) && |GROUP_ROUTES| == 2 && RowPair(GROUP_ROUTES, 0, GROUP_TABLES[0])
  {
    GroupRow(ListAdd, GroupAddMember);
    GroupRow(ListDel, GroupRemoveMember);
    assert GROUP_FIELDS.Keys == GROUP_LISTS;
    hide Understood, GROUP_FIELDS, GROUP_LISTS;
  }

  lemma GroupKnown()
    ensures forall k :: KnownList(GROUP, k) <==> k in GROUP_LISTS
  {
    hide GROUP_ROUTES, STANDARD;
  }

  lemma GroupRow(from: Direction, meth: Method)
    requires MemberReading(meth) == Some(Reading(from, PlainItem, GROUP_MEMBERS))
    ensures Understood(Route(from, meth, GROUP_FIELDS, PlainItem, true))
  {
  }

  // ---------- caacl ----------

  lemma CaaclValid()
    ensures ValidClient(CAACL)
  {
    CaaclNames();
    CaaclDefaults();
    CaaclRoutesValid();
    hide ValidRoutes, ValidDefaults, ValidNames, STANDARD, CAACL_ROUTES;
  }

  lemma CaaclNames()
    ensures ValidNames(CAACL)
  {
    hide STANDARD, CAACL_ROUTES;
  }

  lemma CaaclDefaults()
    ensures ValidDefaults(CAACL)
  {
    hide STANDARD, CAACL_ROUTES, ValidDefaults;
    TableDefaults(CAACL, map[]);
  }

  /** The tables split the list attributes. */
  lemma CaaclTables(tables: seq<set<string>>)
    requires tables == seq(5, i requires 0 <= i < 5 => CaaclFields(CAACL_ITEMS[i]))
    ensures forall s, t | 0 <= s < t < 5 :: tables[s] !! tables[t]
    ensures forall k | k in CAACL_LISTS :: InTable(tables, k)
    ensures forall t | 0 <= t < 5 :: tables[t] <= CAACL_LISTS - {"description"}
  {
    hide CaaclFields;
    forall s, t | 0 <= s < t < 5 ensures tables[s] !! tables[t] {
      ItemsApart(CAACL_ITEMS[s], CAACL_ITEMS[t]);
    }
    forall k | k in CAACL_LISTS ensures InTable(tables, k) {
      assert k in tables[TableOf(k)];
    }
    forall t | 0 <= t < 5 ensures tables[t] <= CAACL_LISTS - {"description"} {
      ItemKeys(CAACL_ITEMS[t]);
    }
  }

  lemma CaaclRoutesValid()
    ensures ValidRoutes(CAACL)
  {
    var tables := seq(5, i requires 0 <= i < 5 => CaaclFields(CAACL_ITEMS[i]));
    var kind: seq<nat> := seq(10, i requires 0 <= i < 10 => if i < 5 then i else i - 5);
    hide Understood, CAACL_ROUTES, STANDARD, CaaclFields, HasRow, InTable, KnownList;
    forall i | 0 <= i < 10
      ensures Understood(CAACL.routes[i]) && CAACL.routes[i].fields.Keys == tables[kind[i]]
      ensures CAACL.routes[i].from == if i < 5 then ListAdd else ListDel
    {
      CaaclRowOk(i);
    }
    CaaclTables(tables);
    forall t | 0 <= t < 5 ensures HasRow(CAACL, kind, t, ListAdd) && HasRow(CAACL, kind, t, ListDel) {
      RowAt(CAACL, kind, t);
      RowAt(CAACL, kind, t + 5);
    }
    CaaclLists();
    TableRoutes(CAACL, CAACL_LISTS, tables, kind);
  }

  lemma CaaclLists()
    ensures forall k :: KnownList(CAACL, k) <==> k in CAACL_LISTS
  {
    hide CAACL_ROUTES, STANDARD;
  }

  ghost function TableOf(k: string): (t: nat)
    requires k in CAACL_LISTS
    ensures t < 5 && k in CaaclFields(CAACL_ITEMS[t])
  {
    if k in {"user", "group"} then 0 else if k in {"host", "hostgroup"} then 1
    else if k == "certprofile" then 2 else if k == "ca" then 3 else 4
  }

  lemma ItemsApart(m: CaaclMember, n: CaaclMember)
    requires m != n
    ensures CaaclFields(m) !! CaaclFields(n)
  {
  }

  lemma ItemKeys(m: CaaclMember)
    ensures CaaclFields(m) <= CAACL_LISTS - {"description"}
  {
  }

  lemma CaaclRowOk(i: nat)
    requires i < 10
    ensures Understood(CaaclRow(i)) && CaaclRow(i).from == (if i < 5 then ListAdd else ListDel)
    ensures CaaclRow(i).fields.Keys == CaaclFields(CAACL_ITEMS[if i < 5 then i else i - 5])
  {
    CaaclAgrees(CAACL_ITEMS[if i < 5 then i else i - 5]);
  }

  lemma CaaclAgrees(m: CaaclMember)
    ensures CaaclAttrs(m) == Same(CaaclFields(m)) && ALL !in CaaclFields(m)
  {
  }

  // ---------- service ----------

  lemma ServiceValid()
    ensures ValidClient(SERVICE)
  {
    ServiceNamesValid();
    ServiceDefaultsValid();
    ServiceRoutesValid();
    hide ValidRoutes, ValidDefaults, ValidNames, SERVICE_ROUTES, STANDARD, SERVICE_BASE, SERVICE_LISTS;
  }

  lemma ServiceNamesValid()
    ensures ValidNames(SERVICE)
  {
    Keys.ServiceNames();
    hide SERVICE_ROUTES, STANDARD, SERVICE_DEFAULTS, SERVICE_LISTS, SERVICE_STRS, SERVICE_FLAGS, GoodName, SERVICE_BASE, ValidNames;
    GoodNames(SERVICE);
  }

  lemma ServiceDefaultsValid()
    ensures ValidDefaults(SERVICE)
  {
    ServiceStandard();
    ServiceStandardBase();
    ServiceFlags();
    ServiceDefaultKeys();
    hide SERVICE_ROUTES, STANDARD, SERVICE_STRS, SERVICE_LISTS, SERVICE_BASE, SERVICE_FLAGS, STANDARD_KEYS, SERVICE_DEFAULTS, ValidDefaults;
    TableDefaults(SERVICE, SERVICE_DEFAULTS);
  }

  lemma ServiceDefaultKeys()
    ensures SERVICE_DEFAULTS.Keys == SERVICE_FLAGS && "krbcanonicalname" in SERVICE_STRS
    ensures forall k | k in SERVICE_DEFAULTS :: SERVICE_DEFAULTS[k].Bool?
  {
  }

  lemma ServiceRoutesValid()
    ensures ValidRoutes(SERVICE)
  {
    ServiceRowsOk();
    ServiceKnown();
    ServiceTables();
    hide Understood, SERVICE_ROUTES, STANDARD, SERVICE_TABLES, SERVICE_LISTS, SERVICE_BASE, KnownList;
    hide RowPair, AllUnderstood, Params, SERVICE_STRS, SERVICE_FLAGS, SERVICE_DEFAULTS, ValidRoutes, InTable;
    TurnRoutes(SERVICE, SERVICE_LISTS, SERVICE_TABLES);
  }

  const SERVICE_TABLES: seq<set<string>> := [ServiceAttrs(0), ServiceAttrs(1), ServiceAttrs(2)]

  lemma ServiceTables()
    ensures |SERVICE_TABLES| == 3
    ensures forall s, t | 0 <= s < t < 3 :: SERVICE_TABLES[s] !! SERVICE_TABLES[t]
    ensures forall t | 0 <= t < 3 :: SERVICE_TABLES[t] <= SERVICE_LISTS - SERVICE_BASE
    ensures forall k | k in SERVICE_LISTS - SERVICE_BASE :: InTable(SERVICE_TABLES, k)
  {
    ServiceAttrsAll();
    hide ServiceAttrs, SERVICE_LISTS, SERVICE_BASE;
    ServiceAttrsApart(0, 1);
    ServiceAttrsApart(0, 2);
    ServiceAttrsApart(1, 2);
    forall k | k in SERVICE_LISTS - SERVICE_BASE ensures InTable(SERVICE_TABLES, k) {
      assert k in SERVICE_TABLES[0] || k in SERVICE_TABLES[1] || k in SERVICE_TABLES[2];
    }
  }

  lemma ServiceRowsOk()
    ensures AllUnderstood(SERVICE_ROUTES) && |SERVICE_ROUTES| == 6
    ensures forall t | 0 <= t < 3 :: RowPair(SERVICE_ROUTES, t, SERVICE_TABLES[t])
  {
    hide Understood, ServiceRow, ServiceAttrs, SERVICE_ROUTES;
    forall t, dir | 0 <= t < 3 ensures Understood(ServiceRow(t, dir))
      ensures ServiceRow(t, dir).from == dir && ServiceRow(t, dir).fields.Keys == ServiceAttrs(t)
    {
      ServiceRowOk(t, dir);
    }
    ServiceRowsInTurn();
  }

  lemma ServiceRowsInTurn()
    ensures |SERVICE_ROUTES| == 6
    ensures forall i | 0 <= i < 6 :: SERVICE_ROUTES[i] == ServiceRow(i / 2, InTurn(i))
  {
    hide ServiceRow, InTurn;
  }

  function ServiceAttrs(t: nat): set<string> {
    if t == 0 then {"managedby_host"} else if t == 1 then WRITE_ATTRS else READ_ATTRS
  }

  lemma ServiceAttrsApart(s: nat, t: nat)
    requires s < t < 3
    ensures ServiceAttrs(s) !! ServiceAttrs(t)
  {
    ServiceRowsApart();
    hide WRITE_ATTRS, READ_ATTRS;
  }

  lemma ServiceAttrsAll()
    ensures ServiceAttrs(0) + ServiceAttrs(1) + ServiceAttrs(2) == SERVICE_LISTS - SERVICE_BASE
    ensures forall t | 0 <= t < 3 :: ServiceAttrs(t) <= SERVICE_LISTS - SERVICE_BASE
  {
    ServiceSplit();
    hide WRITE_ATTRS, READ_ATTRS, SERVICE_LISTS, SERVICE_BASE;
  }

  lemma ServiceRowOk(t: nat, dir: Direction)
    requires t < 3
    ensures Understood(ServiceRow(t, dir)) && ServiceRow(t, dir).from == dir
    ensures ServiceRow(t, dir).fields.Keys == ServiceAttrs(t)
  {
    if t == 0 { HostRow(dir, ServiceMethod(t, dir)); }
    if t == 1 { WriteRow(dir, ServiceMethod(t, dir)); }
    if t == 2 { ReadRow(dir, ServiceMethod(t, dir)); }
    ServiceKeys();
    hide Understood, HOST_FIELDS, WRITE_FIELDS, READ_FIELDS, WRITE_ATTRS, READ_ATTRS;
  }

  lemma ServiceKeys()
    ensures HOST_FIELDS.Keys == {"managedby_host"} && WRITE_FIELDS.Keys == WRITE_ATTRS && READ_FIELDS.Keys == READ_ATTRS
  {
  }

  lemma ServiceKnown()
    ensures forall k :: KnownList(SERVICE, k) <==> k in SERVICE_LISTS
  {
    ServiceFlags();
    hide SERVICE_ROUTES, STANDARD, SERVICE_DEFAULTS, SERVICE_LISTS, SERVICE_STRS, SERVICE_FLAGS, SERVICE_BASE;
  }

  lemma HostRow(from: Direction, meth: Method)
    requires MemberReading(meth) == Some(Reading(from, PlainItem, map["host" := "managedby_host"]))
    ensures Understood(Route(from, meth, HOST_FIELDS, PlainItem, false))
  {
  }

  lemma WriteRow(from: Direction, meth: Method)
    requires MemberReading(meth) == Some(Reading(from, PlainItem, WRITE_KEYS))
    ensures Understood(Route(from, meth, WRITE_FIELDS, PlainItem, false))
  {
  }

  lemma ReadRow(from: Direction, meth: Method)
    requires MemberReading(meth) == Some(Reading(from, PlainItem, READ_KEYS))
    ensures Understood(Route(from, meth, READ_FIELDS, PlainItem, false))
  {
  }

  // ---------- user ----------

  lemma UserValid()
    ensures ValidClient(USER)
  {
    UserNamesValid();
    UserDefaultsValid();
    UserRoutesValid();
    UserEnable();
    hide ValidRoutes, ValidDefaults, ValidNames, ValidEnableKey, USER_ROUTES, USER_STRS, STANDARD;
  }

  lemma UserEnable()
    ensures ValidEnableKey(USER)
  {
    UserApart();
    UserListsApart();
    hide USER_ROUTES, STANDARD, USER_STRS, USER_LISTS, USER_BASE;
  }

  lemma UserNamesValid()
    ensures ValidNames(USER)
  {
    Keys.UserNames();
    hide USER_ROUTES, STANDARD, USER_STRS, USER_LISTS, GoodName, USER_BASE, ValidNames;
    GoodNames(USER);
  }

  lemma UserDefaultsValid()
    ensures ValidDefaults(USER)
  {
    UserStandard();
    UserListsApart();
    UserStandardBase();
    hide USER_ROUTES, STANDARD, USER_STRS, USER_LISTS, USER_BASE, STANDARD_KEYS, ValidDefaults;
    TableDefaults(USER, map["nsaccountlock" := Bool(false)]);
  }

  lemma UserStandardBase()
    ensures STANDARD_KEYS !! USER_BASE
  {
    UserStandard();
    hide USER_STRS, STANDARD_KEYS;
    assert USER_BASE <= USER_STRS + USER_LISTS + {"gidnumber"};
  }

  lemma UserRoutesValid()
    ensures ValidRoutes(USER)
  {
    UserRowsOk();
    UserKnown();
    UserTables();
    hide AllUnderstood, USER_ROUTES, USER_TABLES, USER_STRS, USER_LISTS, USER_BASE, STANDARD, Params, KnownList;
    hide RowPair, InTable, ValidRoutes;
    TurnRoutes(USER, USER_LISTS, USER_TABLES);
  }

  const USER_TABLES: seq<set<string>> := [{CERT}, {PRINCIPAL}]

  lemma UserTables()
    ensures |USER_TABLES| == 2 && USER_TABLES[0] !! USER_TABLES[1]
    ensures forall t | 0 <= t < 2 :: USER_TABLES[t] <= USER_LISTS - USER_BASE
    ensures forall k | k in USER_LISTS - USER_BASE :: InTable(USER_TABLES, k)
  {
    UserSplit();
    hide USER_STRS, USER_LISTS, USER_BASE;
    forall k | k in USER_LISTS - USER_BASE ensures InTable(USER_TABLES, k) {
      assert k in USER_TABLES[0] || k in USER_TABLES[1];
    }
  }

  lemma UserRowsOk()
    ensures AllUnderstood(USER_ROUTES) && |USER_ROUTES| == 4
    ensures forall t | 0 <= t < 2 :: RowPair(USER_ROUTES, t, USER_TABLES[t])
  {
    forall t, dir | 0 <= t < 2 ensures Understood(UserRow(t, dir))
      ensures UserRow(t, dir).from == dir && UserRow(t, dir).fields.Keys == if t == 0 then {CERT} else {PRINCIPAL}
    {
      UserRowOk(t, dir);
    }
    hide Understood, UserRow;
    forall i | 0 <= i < 4 ensures USER_ROUTES[i] == UserRow(i / 2, InTurn(i)) { }
    hide USER_ROUTES;
  }

  lemma UserRowOk(t: nat, dir: Direction)
    requires t < 2
    ensures Understood(UserRow(t, dir)) && UserRow(t, dir).from == dir
    ensures UserRow(t, dir).fields.Keys == if t == 0 then {CERT} else {PRINCIPAL}
  {
  }

  lemma UserKnown()
    ensures forall k :: KnownList(USER, k) <==> k in USER_LISTS
  {
    UserListsApart();
    hide USER_ROUTES, STANDARD, USER_STRS, USER_LISTS, USER_BASE;
  }
}
