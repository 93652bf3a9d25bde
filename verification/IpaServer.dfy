/** The abstract server: one object, and what the API's methods do to it. */
module IpaServer {
  import opened Strings
  import opened IpaModel
  import opened Rewrite

  /** How the server reads a member request: the direction, where the values are, and the
      attribute each item key stands for. Written from the API's method names alone. */
  datatype Reading = Reading(dir: Direction, carrier: Carrier, attrs: map<string, string>)

  function CaaclAttrs(m: CaaclMember): map<string, string> {
    match m
    case MUser => map["user" := "user", "group" := "group"]
    case MHost => map["host" := "host", "hostgroup" := "hostgroup"]
    case MProfile => map["certprofile" := "certprofile"]
    case MCa => map["ca" := "ca"]
    case MService => map["service" := "service"]
  }

  const WRITE_KEYS: map<string, string> :=
    map["user" := "ipaallowedtoperform_write_keys_user",
        "group" := "ipaallowedtoperform_write_keys_group",
        "host" := "ipaallowedtoperform_write_keys_host",
        "hostgroup" := "ipaallowedtoperform_write_keys_hostgroup"]

  const READ_KEYS: map<string, string> :=
    map["user" := "ipaallowedtoperform_read_keys_user",
        "group" := "ipaallowedtoperform_read_keys_group",
        "host" := "ipaallowedtoperform_read_keys_host",
        "hostgroup" := "ipaallowedtoperform_read_keys_hostgroup"]

  const GROUP_MEMBERS: map<string, string> := map["user" := "member_user", "group" := "member_group"]

  function MemberReading(m: Method): Option<Reading> {
    match m
    case CaaclAdd(x) => Some(Reading(ListAdd, PlainItem, CaaclAttrs(x)))
    case CaaclRemove(x) => Some(Reading(ListDel, PlainItem, CaaclAttrs(x)))
    case GroupAddMember => Some(Reading(ListAdd, PlainItem, GROUP_MEMBERS))
    case GroupRemoveMember => Some(Reading(ListDel, PlainItem, GROUP_MEMBERS))
    case UserAddCert => Some(Reading(ListAdd, Base64Item, map["usercertificate" := "usercertificate"]))
    case UserRemoveCert => Some(Reading(ListDel, Base64Item, map["usercertificate" := "usercertificate"]))
    case UserAddPrincipal => Some(Reading(ListAdd, NameArgument, map["" := "krbprincipalname"]))
    case UserRemovePrincipal => Some(Reading(ListDel, NameArgument, map["" := "krbprincipalname"]))
    case ServiceAddHost => Some(Reading(ListAdd, PlainItem, map["host" := "managedby_host"]))
    case ServiceRemoveHost => Some(Reading(ListDel, PlainItem, map["host" := "managedby_host"]))
    case ServiceAllowCreateKeytab => Some(Reading(ListAdd, PlainItem, WRITE_KEYS))
    case ServiceDisallowCreateKeytab => Some(Reading(ListDel, PlainItem, WRITE_KEYS))
    case ServiceAllowRetrieveKeytab => Some(Reading(ListAdd, PlainItem, READ_KEYS))
    case ServiceDisallowRetrieveKeytab => Some(Reading(ListDel, PlainItem, READ_KEYS))
    case _ => None
  }

  /** The certificate text inside a `{'__base64__': ..}` argument. */
  function Decoded(carrier: Carrier, a: Atom): Atom {
    if carrier == Base64Item && a.B64? then Str(a.text) else a
  }

  /** The values a member request gives for the item key `f`; certificates only count wrapped. */
  function Given(carrier: Carrier, r: Request, f: string): set<Atom> {
    if carrier == NameArgument then r.extra
    else if f in r.item && r.item[f].Members? then
      set v | v in r.item[f].vs && (carrier == Base64Item ==> v.B64?) :: Decoded(carrier, v)
    else {}
  }

  function MemberPairs(rd: Reading, r: Request): set<Pair> {
    set f, v | f in rd.attrs && v in Given(rd.carrier, r, f) :: (rd.attrs[f], v)
  }

  function LinePairs(item: Item, k: string): set<Pair> {
    if k in item && item[k].Lines? then ParsedLines(item[k].ls) else {}
  }

  function ItemEdit(item: Item): Edit {
    Edit(map k | k in item && k != ALL && item[k].Val? :: item[k].a,
         LinePairs(item, ADDATTR), LinePairs(item, DELATTR))
  }

  function EnableEdit(c: Client, on: bool): Edit {
    Edit(if c.enableKey.Some? then map[c.enableKey.value := Bool(on != c.inverted)] else map[], {}, {})
  }

  /** What a request asks to change on an object that exists. */
  function EditOf(c: Client, r: Request): Edit {
    if r.meth == Enable || r.meth == Disable then EnableEdit(c, r.meth == Enable)
    else if r.meth == Add || r.meth == Mod then ItemEdit(r.item)
    else
      match MemberReading(r.meth)
      case None => Edit(map[], {}, {})
      case Some(rd) =>
        if rd.dir == ListAdd then Edit(map[], MemberPairs(rd, r), {})
        else Edit(map[], {}, MemberPairs(rd, r))
  }

  /** A new object: enabled, for the classes that can be enabled. */
  function NewObj(c: Client): Obj {
    Obj(if c.enableKey.Some? then map[c.enableKey.value := Bool(!c.inverted)] else map[], {})
  }

  /** `Refused` is an error reply, which makes the module fail. */
  datatype Reply = Accepted(obj: Option<Obj>) | Refused

  /** Adding an object that exists is a duplicate entry; every other change needs the object. */
  function Serve(c: Client, o: Option<Obj>, r: Request): Reply {
    if r.meth == Find then Accepted(o)
    else if r.meth == Add then
      if o.Some? then Refused else Accepted(Some(Apply(NewObj(c), EditOf(c, r))))
    else if o.None? then Refused
    else if r.meth == Rem then Accepted(None)
    else Accepted(Some(Apply(o.value, EditOf(c, r))))
  }

  /** A queue posted in order, stopping at the first refusal. */
  function ServeAll(c: Client, o: Option<Obj>, q: seq<Request>): Reply {
    if q == [] then Accepted(o)
    else
      match ServeAll(c, o, q[..|q| - 1])
      case Refused => Refused
      case Accepted(o1) => Serve(c, o1, q[|q| - 1])
  }

  lemma {:induction false} ServeAppend(c: Client, o: Option<Obj>, a: seq<Request>, b: seq<Request>)
    ensures ServeAll(c, o, a + b) ==
      match ServeAll(c, o, a) case Refused => Refused case Accepted(o1) => ServeAll(c, o1, b)
  {
    if b == [] {
      assert a + b == a;
    } else {
      var q := a + b;
      assert q[..|q| - 1] == a + b[..|b| - 1];
      ServeAppend(c, o, a, b[..|b| - 1]);
    }
  }

  lemma ServeOne(c: Client, o: Option<Obj>, r: Request)
    ensures ServeAll(c, o, [r]) == Serve(c, o, r)
  {
    assert [r][..0] == [];
    assert ServeAll(c, o, [r][..0]) == Accepted(o);
  }
}
