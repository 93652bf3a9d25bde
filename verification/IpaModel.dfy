/** The data of lib/python/ipa.py: parameter values, client classes, requests. */
module IpaModel {
  import opened Strings

  /** A JSON scalar; `B64(t)` is the API's `{'__base64__': t}`. */
  datatype Atom = Null | Bool(b: bool) | Int(n: int) | Str(s: string) | B64(text: string)

  /** A module parameter or an attribute of a reply: one value or a list of values. */
  datatype Raw = One(a: Atom) | Many(xs: seq<Atom>)
  type Dict = map<string, Raw>

  datatype PType = TStr | TInt | TBool | TList
  datatype State = Present | Absent | Exact | Enabled | Disabled

  /** `list(set(..))` has no fixed order, so list-valued attributes of a delta are sets. */
  type Lists = map<string, set<Atom>>
  type Scalars = map<string, Atom>

  datatype Slice = Slice(scalars: Scalars, lists: Lists)
  datatype Delta = Delta(scalars: Scalars, listAdd: Lists, listDel: Lists)

  datatype Method =
    | Find | Add | Rem | Mod | Enable | Disable
    | CaaclAdd(obj: CaaclMember) | CaaclRemove(obj: CaaclMember)
    | GroupAddMember | GroupRemoveMember
    | UserAddCert | UserRemoveCert | UserAddPrincipal | UserRemovePrincipal
    | ServiceAddHost | ServiceRemoveHost
    | ServiceAllowCreateKeytab | ServiceDisallowCreateKeytab
    | ServiceAllowRetrieveKeytab | ServiceDisallowRetrieveKeytab

  datatype CaaclMember = MUser | MHost | MProfile | MCa | MService

  /** A value in a request's item. `Grouped` is the dict that `addattr`/`delattr` hold
      before they are rewritten into `Lines`. */
  datatype ItemVal = Val(a: Atom) | Members(vs: set<Atom>) | Grouped(m: Lists) | Lines(ls: seq<string>)
  type Item = map<string, ItemVal>

  /** `extra` is what `mod_request_params(extra_vals=..)` appends to the object's name. */
  datatype Request = Request(meth: Method, extra: set<Atom>, item: Item)

  datatype Direction = ListAdd | ListDel
  datatype Carrier = PlainItem | Base64Item | NameArgument

  /** One row of the tables that the `handle_*` and `add_remove_list_items` functions loop
      over: which attributes of the delta go, under which item key, into which request. */
  datatype Route = Route(from: Direction, meth: Method, fields: map<string, string>,
                         carrier: Carrier, marks: bool)

  datatype Kind = BaseKind | Caacl | Group | User | Service

  /** A client class: its parameters, request keys and tables. `defaults` holds every
      'default' of the argument spec, the standard parameters' included. */
  datatype Client = Client(kind: Kind, paramData: map<string, PType>, defaults: Scalars,
                           paramKeys: set<string>, baseKeys: set<string>,
                           enableKey: Option<string>, inverted: bool, routes: seq<Route>)

  predicate IsList(c: Client, k: string) { k in c.paramData && c.paramData[k] == TList }

  /** An attribute of the object, as opposed to its key or a foreign attribute. */
  predicate Known(c: Client, k: string) { k in c.paramData && k !in c.paramKeys }

  predicate KnownList(c: Client, k: string) { Known(c, k) && IsList(c, k) }

  predicate KnownScalar(c: Client, k: string) { Known(c, k) && !IsList(c, k) }

  predicate Typed(t: PType, a: Atom) {
    match t
    case TStr => a.Str?
    case TInt => a.Int?
    case TBool => a.Bool?
    case TList => a.Str?
  }

  // ---------- attribute-value pairs ----------

  type Pair = (string, Atom)

  function Get(m: Lists, k: string): set<Atom> { if k in m then m[k] else {} }

  ghost function Pairs(m: Lists): set<Pair> {
    set k, v | k in m && v in m[k] :: (k, v)
  }

  function Values(ps: set<Pair>, k: string): set<Atom> {
    set p | p in ps && p.0 == k :: p.1
  }

  lemma ValuesOf(ps: set<Pair>, k: string, v: Atom)
    ensures v in Values(ps, k) <==> (k, v) in ps
  {
    if v in Values(ps, k) {
      var p :| p in ps && p.0 == k && p.1 == v;
      assert p == (k, v);
    }
  }

  // ---------- the object on the server ----------

  /** Attributes not in `paramData` may be there too; the client never sees them. */
  datatype Obj = Obj(scalars: Scalars, pairs: set<Pair>)

  ghost predicate WellTyped(c: Client, o: Obj) {
    && (forall k | k in o.scalars && Known(c, k) :: !IsList(c, k) && Typed(c.paramData[k], o.scalars[k]))
    && (forall p | p in o.pairs && Known(c, p.0) :: IsList(c, p.0) && p.1.Str?)
  }

  /** What a client of class `c` sees of the object once a reply is in canonical form. */
  function View(c: Client, o: Obj): Slice {
    Slice(map k | k in o.scalars && KnownScalar(c, k) :: o.scalars[k],
          map k | k in c.paramData && KnownList(c, k) && Values(o.pairs, k) != {} :: Values(o.pairs, k))
  }

  const NOTHING := Slice(map[], map[])

  function ViewOf(c: Client, o: Option<Obj>): Slice {
    match o case None => NOTHING case Some(obj) => View(c, obj)
  }

  lemma ViewPairs(c: Client, o: Obj)
    ensures Pairs(View(c, o).lists) == set p | p in o.pairs && KnownList(c, p.0)
  {
    forall k, v ensures (k, v) in Pairs(View(c, o).lists) <==> (k, v) in o.pairs && KnownList(c, k) {
      ValuesOf(o.pairs, k, v);
    }
    forall p ensures p in Pairs(View(c, o).lists) <==> p in o.pairs && KnownList(c, p.0) {
      assert p == (p.0, p.1);
    }
  }

  /** A set of scalar assignments (`Null` clears), values to add and values to remove. */
  datatype Edit = Edit(scalars: Scalars, add: set<Pair>, del: set<Pair>)

  function Assign(s: Scalars, e: Scalars): Scalars {
    map k | k in s.Keys + e.Keys && (k in e ==> e[k] != Null) :: if k in e then e[k] else s[k]
  }

  function Apply(o: Obj, e: Edit): Obj {
    Obj(Assign(o.scalars, e.scalars), o.pairs + e.add - e.del)
  }
}
