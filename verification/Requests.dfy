/** The queue one run builds: `rem`, `add_or_mod`, `enable_or_disable` and the member
    functions of the client classes, and the run as a whole. */
module Requests {
  import opened Strings
  import opened IpaModel
  import opened Canonical
  import opened Changes
  import opened Rewrite
  import opened IpaServer

  // ---------- add_or_mod ----------

  function Restrict(m: Lists, keys: set<string>): Lists { map k | k in m && k in keys :: m[k] }

  function RestrictScalars(m: Scalars, keys: set<string>): Scalars { map k | k in m && k in keys :: m[k] }

  /** The item before `mod_rewrite_list_changes`. */
  function ChangedItem(c: Client, d: Delta): Item {
    var adds := Restrict(d.listAdd, c.baseKeys);
    var dels := Restrict(d.listDel, c.baseKeys);
    (if adds != map[] then map[ADDATTR := Grouped(adds)] else map[])
    + (if dels != map[] then map[DELATTR := Grouped(dels)] else map[])
    + (map k | k in d.scalars && k in c.baseKeys :: Val(d.scalars[k]))
  }

  ghost function BaseRequest(c: Client, d: Delta, isAbsent: bool): Request {
    Request(if isAbsent then Add else Mod, {}, Rewritten(ChangedItem(c, d)[ALL := Val(Bool(true))]))
  }

  ghost function BaseQueue(c: Client, d: Delta, isAbsent: bool, exists_: bool): seq<Request> {
    if ChangedItem(c, d) == map[] && exists_ then [] else [BaseRequest(c, d, isAbsent)]
  }

  // ---------- enable_or_disable ----------

  predicate EnableActive(c: Client, st: State, check: bool, d: Delta, isAbsent: bool) {
    && c.enableKey.Some? && c.enableKey.value in d.scalars
    && !isAbsent && st in {Enabled, Disabled} && !check
  }

  function EnableRequest(c: Client, d: Delta): Request
    requires c.enableKey.Some? && c.enableKey.value in d.scalars
  {
    var on := (d.scalars[c.enableKey.value] == Bool(true)) != c.inverted;
    Request(if on then Enable else Disable, {}, map[])
  }

  function EnableQueue(c: Client, st: State, check: bool, d: Delta, isAbsent: bool): seq<Request> {
    if EnableActive(c, st, check, d, isAbsent) then [EnableRequest(c, d)] else []
  }

  // ---------- member requests ----------

  function FromList(d: Delta, dir: Direction): Lists {
    if dir == ListAdd then d.listAdd else d.listDel
  }

  /** Whether the delta holds anything for a row of the table. */
  predicate RouteActive(rt: Route, d: Delta) {
    exists a | a in rt.fields :: a in FromList(d, rt.from)
  }

  function Encoded(carrier: Carrier, v: Atom): Atom {
    if carrier == Base64Item && v.Str? then B64(v.s) else v
  }

  function RouteItem(rt: Route, d: Delta): Item {
    if rt.carrier == NameArgument then map[ALL := Val(Bool(true))]
    else
      (map f | f in FieldsOf(rt, d) :: Members(FieldValues(rt, d, f)))[ALL := Val(Bool(true))]
  }

  /** The item keys a row fills in. */
  function FieldsOf(rt: Route, d: Delta): set<string> {
    set a | a in rt.fields && a in FromList(d, rt.from) :: rt.fields[a]
  }

  function FieldValues(rt: Route, d: Delta, f: string): set<Atom> {
    set a, v | a in rt.fields && rt.fields[a] == f && v in Get(FromList(d, rt.from), a) :: Encoded(rt.carrier, v)
  }

  function RouteExtra(rt: Route, d: Delta): set<Atom> {
    if rt.carrier != NameArgument then {}
    else set a, v | a in rt.fields && v in Get(FromList(d, rt.from), a) :: v
  }

  function RouteRequest(rt: Route, d: Delta): Request {
    Request(rt.meth, RouteExtra(rt, d), RouteItem(rt, d))
  }

  function RouteQueue(routes: seq<Route>, check: bool, d: Delta): seq<Request> {
    if routes == [] then []
    else
      var rt := routes[|routes| - 1];
      RouteQueue(routes[..|routes| - 1], check, d) +
        (if RouteActive(rt, d) && !check then [RouteRequest(rt, d)] else [])
  }

  predicate Marked(routes: seq<Route>, d: Delta) {
    exists i | 0 <= i < |routes| :: routes[i].marks && RouteActive(routes[i], d)
  }

  // ---------- the queue ----------

  /** `state=absent` without attributes: the object itself is to go. */
  predicate RemovesObject(st: State, want: Slice) { st == Absent && want == NOTHING }

  const REM_REQUEST := Request(Rem, {}, map[])

  /** The queue after `find`, from what `find` stores. */
  ghost function QueueFrom(c: Client, st: State, check: bool, d: Delta, removes: bool, isAbsent: bool, exists_: bool): seq<Request> {
    if removes then
      if isAbsent || check then [] else [REM_REQUEST]
    else
      BaseQueue(c, d, isAbsent, exists_) + EnableQueue(c, st, check, d, isAbsent) + RouteQueue(c.routes, check, d)
  }

  ghost function Queue(c: Client, st: State, check: bool, want: Slice, o: Option<Obj>): seq<Request> {
    var have := ViewOf(c, o);
    QueueFrom(c, st, check, ComputeChanges(c, st, want, have), RemovesObject(st, want), have == NOTHING, o.Some?)
  }

  /** Whether the member functions set `changed` themselves. */
  predicate MarksChanged(c: Client, st: State, want: Slice, o: Option<Obj>) {
    !RemovesObject(st, want) && Marked(c.routes, ComputeChanges(c, st, want, ViewOf(c, o)))
  }

  /** A run that was not refused: the object, the queue after `find`, and `changed`. */
  datatype Outcome = Done(obj: Option<Obj>, queue: seq<Request>, changed: bool) | Failed

  ghost function Run(c: Client, st: State, check: bool, want: Slice, o: Option<Obj>): Outcome {
    var q := Queue(c, st, check, want, o);
    if check then Done(o, q, q != [] || MarksChanged(c, st, want, o))
    else
      match ServeAll(c, o, q)
      case Refused => Failed
      case Accepted(o1) => Done(o1, q, q != [] || MarksChanged(c, st, want, o))
  }

  // ---------- well-formed classes ----------

  /** Reading and row name the same attributes under the same item keys. */
  ghost predicate Agrees(rt: Route, rd: Reading) {
    && rd.dir == rt.from && rd.carrier == rt.carrier
    && (forall a | a in rt.fields :: rt.fields[a] in rd.attrs && rd.attrs[rt.fields[a]] == a)
    && (forall f | f in rd.attrs :: rd.attrs[f] in rt.fields && rt.fields[rd.attrs[f]] == f)
    && ALL !in rd.attrs
    && (rd.carrier == NameArgument ==> rd.attrs.Keys == {""})
  }

  /** The server understands a row as the client means it. */
  ghost predicate Understood(rt: Route) {
    MemberReading(rt.meth).Some? && Agrees(rt, MemberReading(rt.meth).value)
  }

  ghost predicate Routed(c: Client, dir: Direction, k: string) {
    exists i | 0 <= i < |c.routes| :: c.routes[i].from == dir && k in c.routes[i].fields
  }

  ghost predicate AllUnderstood(routes: seq<Route>) {
    forall i | 0 <= i < |routes| :: Understood(routes[i])
  }

  ghost predicate ValidRoutes(c: Client) {
    && AllUnderstood(c.routes)
    && (forall i, k | 0 <= i < |c.routes| && k in c.routes[i].fields :: KnownList(c, k) && k !in c.baseKeys)
    && (forall i, j, k | 0 <= i < j < |c.routes| && k in c.routes[i].fields && k in c.routes[j].fields ::
          c.routes[i].from != c.routes[j].from)
    && (forall k | k in c.paramData && KnownList(c, k) && k !in c.baseKeys ::
          Routed(c, ListAdd, k) && Routed(c, ListDel, k))
  }

  /** Attribute names can be written before `=` and do not clash with the item's own keys. */
  ghost predicate ValidNames(c: Client) {
    forall k | k in c.paramData :: '=' !in k && k !in {ADDATTR, DELATTR, ALL}
  }

  /** Request keys and list parameters have no default; defaults have their type. */
  ghost predicate ValidDefaults(c: Client) {
    && (forall k | k in c.defaults :: c.defaults[k] != Null && !IsList(c, k) && k !in c.paramKeys)
    && (forall k | k in c.defaults && k in c.paramData :: Typed(c.paramData[k], c.defaults[k]))
    && (forall k | k in c.baseKeys && k in c.defaults :: k in c.paramData)
  }

  /** The enable key is a boolean that only the enable and disable methods write. */
  ghost predicate ValidEnableKey(c: Client) {
    c.enableKey.Some? ==>
      var e := c.enableKey.value;
      Known(c, e) && c.paramData[e] == TBool && e !in c.baseKeys
  }

  /** What the engine relies on; each list attribute has one way to the server in each
      direction. */
  ghost predicate ValidClient(c: Client) {
    ValidNames(c) && ValidDefaults(c) && ValidEnableKey(c) && ValidRoutes(c)
  }

  /** What `munge_module_params` yields: known attributes with values of their type, under
      `exact` every default as well, and the enable key the state asks for. */
  ghost predicate Wanted(c: Client, st: State, want: Slice) {
    && (forall k | k in want.lists :: KnownList(c, k) && want.lists[k] != {} && forall v | v in want.lists[k] :: v.Str?)
    && (forall k | k in want.scalars :: want.scalars[k] != Null && !IsList(c, k))
    && (forall k | k in want.scalars ::
          if k in c.paramData then Known(c, k) && Typed(c.paramData[k], want.scalars[k])
          else st == Exact && k in c.defaults)
    && (st == Exact ==> c.defaults.Keys <= want.scalars.Keys)
    && (st in {Enabled, Disabled} ==>
          c.enableKey.Some? && c.enableKey.value in want.scalars
          && want.scalars[c.enableKey.value] == Bool((st == Enabled) != c.inverted))
  }

  // ---------- from parameters to `Wanted` ----------

  /** Parameters as the argument spec types them: whatever survives `clean` has its type. */
  ghost predicate TypedParams(c: Client, params: Dict) {
    CleanDict(c, params).Some? ==>
      var d := CleanDict(c, params).value;
      forall k | k in d :: if IsList(c, k) then forall x | x in d[k].xs :: x.Str? else Typed(c.paramData[k], d[k].a)
  }

  lemma CleanedFirst(c: Client, st: State, params: Dict)
    ensures CanonParams(c, st, params).Some? ==> CleanDict(c, params).Some?
  {
    hide CleanDict;
  }

  /** Where the entries of canonical parameters come from. */
  lemma CanonicalEntries(c: Client, st: State, params: Dict)
    requires CanonParams(c, st, params).Some?
    ensures var d, e := CleanDict(c, params).value, CanonParams(c, st, params).value;
      && (forall k | k in e ::
            || (k in d && k !in c.paramKeys && e[k] == d[k])
            || (st == Exact && k in c.defaults && e[k] == One(c.defaults[k]))
            || (st in {Enabled, Disabled} && Some(k) == c.enableKey && e[k] == One(Bool((st == Enabled) != c.inverted))))
      && (st == Exact ==> c.defaults.Keys <= e.Keys)
      && (st in {Enabled, Disabled} && c.enableKey.Some? ==>
            c.enableKey.value in e && e[c.enableKey.value] == One(Bool((st == Enabled) != c.inverted)))
  {
    hide CleanDict;
  }

  /** Canonical parameters are what the results about runs ask for. */
  lemma CanonicalWanted(c: Client, st: State, params: Dict)
    requires ValidDefaults(c) && ValidEnableKey(c) && TypedParams(c, params)
    requires CanonParams(c, st, params).Some?
    requires st in {Enabled, Disabled} ==> c.enableKey.Some?
    ensures Wanted(c, st, GetSlice(c, CanonParams(c, st, params).value))
    ensures Shaped(c, CanonParams(c, st, params).value)
  {
    CleanedFirst(c, st, params);
    hide CleanDict, CanonParams, GetSlice, Wanted, Shaped;
    var d := CleanDict(c, params).value;
    CleanShaped(c, params);
    var e := CanonParams(c, st, params).value;
    CanonicalEntries(c, st, params);
    EntriesShaped(c, st, d, e);
    EntriesWanted(c, st, params, e);
  }

  // ---------- what was asked for ----------

  /** The key that `enabled` and `disabled` set themselves. */
  predicate Switched(c: Client, st: State, k: string) { st in {Enabled, Disabled} && c.enableKey == Some(k) }

  /** The attribute was given, and not as empty. */
  predicate WasGiven(c: Client, params: Dict, k: string) {
    k in params && Known(c, k) && CleanValue(c.paramData[k], params[k]).Keep?
  }

  /** An attribute is in the canonical parameters exactly if it was given, has a default under
      `exact`, or is the switch; and it has the value that was given, before any default, except
      for the switch. */
  lemma ParamsKept(c: Client, st: State, params: Dict)
    requires CanonParams(c, st, params).Some?
    ensures var e := CanonParams(c, st, params).value;
      && (forall k :: k in e <==> WasGiven(c, params, k) || (st == Exact && k in c.defaults) || Switched(c, st, k))
      && (forall k | k in e ::
            e[k] == if Switched(c, st, k) then One(Bool((st == Enabled) != c.inverted))
                    else if WasGiven(c, params, k) then CleanValue(c.paramData[k], params[k]).v
                    else One(c.defaults[k]))
  {
    hide CleanValue;
    var d := CleanDict(c, params).value;
    assert forall k :: k in PopKeys(c, d) <==> WasGiven(c, params, k);
  }

  /** The same of the wanted state: typed values that were given are wanted as they are, lists
      as sets; under `exact` an attribute that was not given is wanted with its default; and
      nothing else is wanted. */
  lemma WantedIs(c: Client, st: State, params: Dict)
    requires CanonParams(c, st, params).Some? && TypedParams(c, params)
    requires ValidDefaults(c) && ValidEnableKey(c) && (st in {Enabled, Disabled} ==> c.enableKey.Some?)
    ensures var want := GetSlice(c, CanonParams(c, st, params).value);
      && (forall k | k in params && KnownScalar(c, k) && params[k].One? && Typed(c.paramData[k], params[k].a) && !Switched(c, st, k) ::
            k in want.scalars && want.scalars[k] == params[k].a)
      && (forall k | k in params && KnownList(c, k) && params[k].Many? && params[k].xs != [] && params[k].xs[0] != Null ::
            k in want.lists && want.lists[k] == Elems(params[k].xs))
      && (forall k | st == Exact && k in c.defaults && !WasGiven(c, params, k) ::
            k in want.scalars && want.scalars[k] == c.defaults[k])
      && (forall k :: k in want.scalars || k in want.lists <==>
            WasGiven(c, params, k) || (st == Exact && k in c.defaults) || Switched(c, st, k))
  {
    hide CanonParams, CleanValue, CleanDict, TypedParams, Wanted;
    ParamsKept(c, st, params);
    CanonicalWanted(c, st, params);
    forall k | k in params && Known(c, k) && (if IsList(c, k) then params[k].Many? && params[k].xs != [] && params[k].xs[0] != Null
                                              else params[k].One? && Typed(c.paramData[k], params[k].a))
      ensures CleanValue(c.paramData[k], params[k]) == Keep(params[k]) && WasGiven(c, params, k)
    {
      CleanKeeps(c.paramData[k], params[k]);
    }
  }

  /** Entries of the parameters, defaults and the enable key have the canonical shape. */
  lemma EntriesShaped(c: Client, st: State, d: Dict, e: Dict)
    requires ValidDefaults(c) && ValidEnableKey(c) && Shaped(c, d)
    requires forall k | k in e ::
      || (k in d && k !in c.paramKeys && e[k] == d[k])
      || (st == Exact && k in c.defaults && e[k] == One(c.defaults[k]))
      || (st in {Enabled, Disabled} && Some(k) == c.enableKey && e[k] == One(Bool((st == Enabled) != c.inverted)))
    ensures Shaped(c, e)
    ensures forall k | k in e && IsList(c, k) :: k in d && k !in c.paramKeys && e[k] == d[k]
  {
  }

  lemma EntriesWanted(c: Client, st: State, params: Dict, e: Dict)
    requires ValidDefaults(c) && ValidEnableKey(c) && TypedParams(c, params) && CleanDict(c, params).Some? && Shaped(c, e)
    requires CleanDict(c, params).value.Keys <= c.paramData.Keys
    requires var d := CleanDict(c, params).value;
      forall k | k in e ::
        || (k in d && k !in c.paramKeys && e[k] == d[k])
        || (st == Exact && k in c.defaults && e[k] == One(c.defaults[k]))
        || (st in {Enabled, Disabled} && Some(k) == c.enableKey && e[k] == One(Bool((st == Enabled) != c.inverted)))
    requires st == Exact ==> c.defaults.Keys <= e.Keys
    requires st in {Enabled, Disabled} ==>
      c.enableKey.Some? && c.enableKey.value in e && e[c.enableKey.value] == One(Bool((st == Enabled) != c.inverted))
    ensures Wanted(c, st, GetSlice(c, e))
  {
    hide CleanDict;
    forall k | k in e && IsList(c, k) ensures k in CleanDict(c, params).value && e[k].xs[0] in Elems(e[k].xs) { }
  }

  /** Respelling the parameters changes nothing about a run. */
  lemma RespelledParams(c: Client, st: State, params: Dict, other: Dict)
    requires params.Keys == other.Keys
    requires forall k | k in params && k in c.paramData :: Spelling(c.paramData[k], params[k], other[k])
    ensures CanonParams(c, st, params) == CanonParams(c, st, other)
  {
    CleanForgetsSpelling(c, params, other);
  }
}
