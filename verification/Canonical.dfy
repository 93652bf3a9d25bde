/** Canonical parameters and replies: `clean`, the `munge_*` functions and `get_slice`
    of lib/python/ipa.py, and the overrides of the client classes. */
module Canonical {
  import opened Strings
  import opened IpaModel

  // ---------- clean ----------

  /** One value through `clean`: kept, ignored as empty, or an exception. */
  datatype Cleaned = Keep(v: Raw) | Skip | Raise

  function CleanScalar(t: PType, a: Atom): Cleaned {
    if a == Null then Skip
    else if t == TBool && a.Str? then
      if Lower(a.s) == "true" then Keep(One(Bool(true)))
      else if Lower(a.s) == "false" then Keep(One(Bool(false)))
      else Keep(One(a))
    else if t == TInt && a.Str? then
      match ParseInt(a.s)
      case Some(n) => Keep(One(Int(n)))
      case None => Raise
    else Keep(One(a))
  }

  function CleanValue(t: PType, v: Raw): Cleaned {
    if t == TList then
      var xs := if v.Many? then v.xs else [v.a];
      if xs == [] || xs[0] == Null then Skip else Keep(Many(xs))
    else
      match v
      case Many(xs) => if xs == [] then Raise else CleanScalar(t, xs[0])
      case One(a) => CleanScalar(t, a)
  }

  predicate Kept(c: Client, d: Dict, k: string) {
    k in d && k in c.paramData && CleanValue(c.paramData[k], d[k]).Keep?
  }

  predicate Raises(c: Client, d: Dict) {
    exists k | k in d :: k in c.paramData && CleanValue(c.paramData[k], d[k]).Raise?
  }

  function CleanDict(c: Client, d: Dict): Option<Dict> {
    if Raises(c, d) then None
    else Some(map k | k in d && Kept(c, d, k) :: CleanValue(c.paramData[k], d[k]).v)
  }

  /** The shape of a canonical dict: lists for list parameters, single values for the rest. */
  ghost predicate Shaped(c: Client, d: Dict) {
    forall k | k in d :: if IsList(c, k) then d[k].Many? && d[k].xs != [] && d[k].xs[0] != Null
                         else d[k].One? && d[k].a != Null
  }

  lemma CleanShaped(c: Client, d: Dict)
    ensures CleanDict(c, d).Some? ==> Shaped(c, CleanDict(c, d).value)
    ensures CleanDict(c, d).Some? ==> CleanDict(c, d).value.Keys <= c.paramData.Keys
  {
  }

  // ---------- module parameters ----------

  function PopKeys(c: Client, d: Dict): Dict { d - c.paramKeys }

  function ExactDefaults(c: Client, st: State, d: Dict): Dict {
    if st != Exact then d
    else (map k | k in c.defaults && k !in d :: One(c.defaults[k])) + d
  }

  function EnableParam(c: Client, st: State, d: Dict): Dict {
    if c.enableKey.Some? && st in {Enabled, Disabled}
    then d[c.enableKey.value := One(Bool((st == Enabled) != c.inverted))]
    else d
  }

  /** `munge_module_params` */
  function CanonParams(c: Client, st: State, params: Dict): Option<Dict> {
    match CleanDict(c, params)
    case None => None
    case Some(d) => Some(EnableParam(c, st, ExactDefaults(c, st, PopKeys(c, d))))
  }

  // ---------- replies ----------

  const CAACL_PREFIXES: seq<string> :=
    ["memberuser_", "memberhost_", "memberservice_", "ipamembercertprofile_", "ipamemberca_"]

  predicate StartsWith(s: string, p: string) { p <= s }

  predicate CaaclLongKey(k: string) {
    exists i | 0 <= i < |CAACL_PREFIXES| :: StartsWith(k, CAACL_PREFIXES[i])
  }

  /** `key.split('_')[1]` */
  function SecondWord(k: string): string
    requires '_' in k
  {
    var t := k[IndexOf(k, '_') + 1..];
    t[..IndexOf(t, '_')]
  }

  lemma LongKeyHasUnderscore(k: string)
    requires CaaclLongKey(k)
    ensures '_' in k
  {
    var i :| 0 <= i < |CAACL_PREFIXES| && StartsWith(k, CAACL_PREFIXES[i]);
    var p := CAACL_PREFIXES[i];
    assert p[|p| - 1] == '_' && k[|p| - 1] == '_';
  }

  function ShortKey(k: string): string {
    if CaaclLongKey(k) && '_' in k then SecondWord(k) else k
  }

  /** No two keys of the reply end up under the same name. */
  ghost predicate Unambiguous(d: Dict) {
    forall k, l | k in d && l in d && k != l :: ShortKey(k) != ShortKey(l)
  }

  /** `munge_response_keys` of the caacl client, on an unambiguous reply. */
  ghost function ShortKeys(d: Dict): (r: Dict)
    ensures Unambiguous(d) ==> forall k | k in d :: ShortKey(k) in r && r[ShortKey(k)] == d[k]
    ensures r.Keys == set k | k in d :: ShortKey(k)
  {
    var names := set k | k in d :: ShortKey(k);
    map s | s in names :: d[Origin(d, s)]
  }

  ghost function Origin(d: Dict, s: string): (k: string)
    requires exists k | k in d :: ShortKey(k) == s
    ensures k in d && ShortKey(k) == s
  {
    var k :| k in d && ShortKey(k) == s;
    k
  }

  lemma ShortKeyShape(k: string)
    ensures CaaclLongKey(k) ==> '_' in k && '_' !in ShortKey(k)
    ensures !CaaclLongKey(k) ==> ShortKey(k) == k
  {
    if CaaclLongKey(k) { LongKeyHasUnderscore(k); }
  }

  /** The unambiguous short form is the only dict with these entries. */
  lemma ShortKeysUnique(reply: Dict, item: Dict)
    requires Unambiguous(reply)
    requires forall k | k in reply :: ShortKey(k) in item && item[ShortKey(k)] == reply[k]
    requires forall s | s in item :: exists k | k in reply :: ShortKey(k) == s
    ensures item == ShortKeys(reply)
  {
    assert item.Keys == ShortKeys(reply).Keys;
  }

  /** A long key outside `todo`: it has been renamed. */
  predicate Moved(reply: Dict, todo: set<string>, k: string) { k in reply && CaaclLongKey(k) && k !in todo }

  /** Where the entry `s` of a renamed reply comes from: a long key that was renamed to it, or,
      when there is none, the key itself. */
  ghost predicate ComesFrom(reply: Dict, todo: set<string>, s: string, v: Raw) {
    || (exists k :: Moved(reply, todo, k) && ShortKey(k) == s && reply[k] == v)
    || (s in reply && reply[s] == v && forall k :: Moved(reply, todo, k) ==> ShortKey(k) != s)
  }

  /** The reply once its keys outside `todo` have been renamed in place, in some order. */
  ghost predicate Renaming(reply: Dict, item: Dict, todo: set<string>) {
    && (forall k | k in item && CaaclLongKey(k) :: k in reply && k in todo && item[k] == reply[k])
    && (forall k | k in reply && CaaclLongKey(k) && k in todo :: k in item)
    && (forall k | k in reply && !CaaclLongKey(k) :: k in item)
    && (forall k :: Moved(reply, todo, k) ==> ShortKey(k) in item)
    && (forall s | s in item && !CaaclLongKey(s) :: ComesFrom(reply, todo, s, item[s]))
  }

  /** All keys renamed: every short name is there with the value of one of the keys that
      shorten to it, a long one if there is any; without clashes that leaves no choice. */
  lemma AllRenamed(reply: Dict, item: Dict)
    requires Renaming(reply, item, {})
    ensures item.Keys == (set k | k in reply :: ShortKey(k))
    ensures forall s | s in item :: exists k | k in reply :: ShortKey(k) == s && item[s] == reply[k]
    ensures forall s, k | s in item && k in reply && CaaclLongKey(k) && ShortKey(k) == s ::
      exists l :: Moved(reply, {}, l) && ShortKey(l) == s && item[s] == reply[l]
    ensures Unambiguous(reply) ==> item == ShortKeys(reply)
  {
    forall k | k in reply ensures ShortKey(k) in item {
      ShortKeyShape(k);
      if CaaclLongKey(k) { assert Moved(reply, {}, k); }
    }
    forall s | s in item ensures ComesFrom(reply, {}, s, item[s]) && !CaaclLongKey(s) { }
    forall s | s in item ensures exists k | k in reply :: ShortKey(k) == s && item[s] == reply[k] {
      ShortKeyShape(s);
      if k :| Moved(reply, {}, k) && ShortKey(k) == s && reply[k] == item[s] {
        assert k in reply;
      } else {
        assert s in reply && ShortKey(s) == s;
      }
    }
    forall s, k | s in item && k in reply && CaaclLongKey(k) && ShortKey(k) == s
      ensures exists l :: Moved(reply, {}, l) && ShortKey(l) == s && item[s] == reply[l]
    {
      assert Moved(reply, {}, k) && ComesFrom(reply, {}, s, item[s]);
    }
    hide ShortKey, CaaclLongKey, Moved, ComesFrom, Renaming;
    if Unambiguous(reply) {
      forall k | k in reply ensures item[ShortKey(k)] == reply[k] {
        var l :| l in reply && ShortKey(l) == ShortKey(k) && item[ShortKey(k)] == reply[l];
      }
      ShortKeysUnique(reply, item);
    }
  }

  function Unwrap(a: Atom): Atom { if a.B64? then Str(a.text) else a }

  /** The group of `([^@]*)(@[^@]*)?$`, or the whole name when that does not match. */
  function Principal(a: Atom): Atom {
    if !a.Str? then a
    else
      var i := IndexOf(a.s, '@');
      if i < |a.s| && '@' in a.s[i + 1..] then a else Str(a.s[..i])
  }

  function RemoveFirst(xs: seq<Atom>, x: Atom): seq<Atom> {
    if xs == [] then [] else if xs[0] == x then xs[1..] else [xs[0]] + RemoveFirst(xs[1..], x)
  }

  function MapAtoms(f: Atom -> Atom, xs: seq<Atom>): (r: seq<Atom>)
    ensures |r| == |xs| && forall i | 0 <= i < |xs| :: r[i] == f(xs[i])
  {
    seq(|xs|, i requires 0 <= i < |xs| => f(xs[i]))
  }

  const CERT := "usercertificate"
  const PRINCIPAL := "krbprincipalname"
  const CANONICAL := "krbcanonicalname"

  function Letters(s: string): seq<Atom> { seq(|s|, i requires 0 <= i < |s| => Str([s[i]])) }

  /** What `for v in vs` runs over: a list's values, a string's characters, the one key of a
      wrapped value; `None` stands for TypeError. */
  function Iterated(v: Raw): Option<seq<Atom>> {
    match v
    case Many(xs) => Some(xs)
    case One(Str(s)) => Some(Letters(s))
    case One(B64(_)) => Some([Str("__base64__")])
    case One(_) => None
  }

  /** `munge_response_usercertificate` of the user client. */
  function UserCerts(d: Dict): Option<Dict> {
    if CERT !in d then Some(d)
    else
      match Iterated(d[CERT])
      case None => None
      case Some(xs) => Some(d[CERT := Many(MapAtoms(Unwrap, xs))])
  }

  /** The canonical name in a reply, unless it is missing or null. */
  function NameOf(d: Dict): Option<Raw> {
    if CANONICAL in d && d[CANONICAL] != One(Null) then Some(d[CANONICAL]) else None
  }

  /** `krbcanonicalname in names` and `names.remove(krbcanonicalname)`: a name wrapped in a list
      is not among the strings. */
  function WithoutName(xs: seq<Atom>, name: Option<Raw>): seq<Atom> {
    if name.Some? && name.value.One? then RemoveFirst(xs, name.value.a) else xs
  }

  /** The characters of a bare string cannot be assigned to, nor the canonical name removed from
      it; only an empty string that the name is not searched in as a substring survives. */
  predicate EmptyNames(v: Raw, name: Option<Raw>) {
    v == One(Str("")) && (name.Some? ==> name.value.One? && name.value.a.Str? && name.value.a.s != "")
  }

  /** `munge_response_krbprincipalname` of the user client; `None` where it raises. */
  function UserPrincipals(d: Dict): Option<Dict> {
    if PRINCIPAL !in d then Some(d)
    else if d[PRINCIPAL].One? then if EmptyNames(d[PRINCIPAL], NameOf(d)) then Some(d) else None
    else
      var ys := WithoutName(d[PRINCIPAL].xs, NameOf(d));
      if exists y | y in ys :: !y.Str? then None else Some(d[PRINCIPAL := Many(MapAtoms(Principal, ys))])
  }

  /** A user's certificates, form by form: those of a list are unwrapped, a bare string falls
      apart into its characters, a bare wrapped value leaves the name of its wrapping, and
      anything else raises. */
  lemma CertForms(d: Dict)
    requires CERT in d
    ensures d[CERT].Many? ==> Unwrapped(d[CERT].xs, d)
    ensures d[CERT].One? && d[CERT].a.Str? ==>
      exists letters: seq<Atom> :: |letters| == |d[CERT].a.s| && (forall i | 0 <= i < |letters| :: letters[i] == Str([d[CERT].a.s[i]]))
        && UserCerts(d) == Some(d[CERT := Many(letters)])
    ensures d[CERT].One? && d[CERT].a.B64? ==> UserCerts(d) == Some(d[CERT := Many([Str("__base64__")])])
    ensures UserCerts(d).None? <==> d[CERT].One? && !d[CERT].a.Str? && !d[CERT].a.B64?
  {
    if d[CERT].Many? {
      var ys := MapAtoms(Unwrap, d[CERT].xs);
      assert UserCerts(d) == Some(d[CERT := Many(ys)]);
    } else if d[CERT].a.Str? {
      var letters := Letters(d[CERT].a.s);
      assert MapAtoms(Unwrap, letters) == letters;
    } else if d[CERT].a.B64? {
      assert MapAtoms(Unwrap, [Str("__base64__")]) == [Str("__base64__")];
    }
  }

  /** The certificates are `xs`, each without its wrapping if it has one. */
  ghost predicate Unwrapped(xs: seq<Atom>, d: Dict) {
    exists ys: seq<Atom> :: |ys| == |xs| && UserCerts(d) == Some(d[CERT := Many(ys)])
      && forall i | 0 <= i < |xs| :: ys[i] == if xs[i].B64? then Str(xs[i].text) else xs[i]
  }

  /** A user's principals, where they raise: in a list that has something else than strings in
      it, the canonical name aside, and in anything but a list, unless it is the empty string and
      a canonical name is missing or a string that is not empty. */
  lemma PrincipalForms(d: Dict)
    requires PRINCIPAL in d
    ensures d[PRINCIPAL].Many? && (forall y | y in d[PRINCIPAL].xs :: y.Str?) ==> UserPrincipals(d).Some?
    ensures d[PRINCIPAL].Many? && (exists y | y in d[PRINCIPAL].xs :: !y.Str? && (CANONICAL in d ==> d[CANONICAL] != One(y))) ==>
      UserPrincipals(d).None?
    ensures d[PRINCIPAL].One? && d[PRINCIPAL].a != Str("") ==> UserPrincipals(d).None?
    ensures d[PRINCIPAL] == One(Str("")) ==>
      UserPrincipals(d) ==
        if CANONICAL !in d || d[CANONICAL] == One(Null)
           || (d[CANONICAL].One? && d[CANONICAL].a.Str? && d[CANONICAL].a != Str(""))
        then Some(d) else None
  {
    if d[PRINCIPAL].Many? {
      var xs, name := d[PRINCIPAL].xs, NameOf(d);
      forall y ensures y in WithoutName(xs, name) ==> y in xs
        ensures y in xs && name != Some(One(y)) ==> y in WithoutName(xs, name)
      {
        if name.Some? && name.value.One? { RemovedOne(xs, name.value.a, y); }
      }
    }
  }

  lemma {:induction false} RemovedOne(xs: seq<Atom>, x: Atom, y: Atom)
    ensures y in RemoveFirst(xs, x) ==> y in xs
    ensures y in xs && y != x ==> y in RemoveFirst(xs, x)
  {
    if xs != [] && xs[0] != x { RemovedOne(xs[1..], x, y); }
  }

  /** `munge_response_usercertificate` of the service client (a single certificate). */
  function ServiceCert(d: Dict): Dict {
    if CERT in d && d[CERT].One? then d[CERT := One(Unwrap(d[CERT].a))] else d
  }

  /** `munge_response_krbprincipalname` of the service client; `list.remove` raises
      ValueError when the canonical name is not in the list. */
  function ServicePrincipals(d: Dict, canonical: Atom): Option<Dict> {
    if PRINCIPAL !in d || !d[PRINCIPAL].Many? then Some(d)
    else if canonical !in d[PRINCIPAL].xs then None
    else
      var ys := RemoveFirst(d[PRINCIPAL].xs, canonical);
      Some(if ys == [] then d - {PRINCIPAL} else d[PRINCIPAL := Many(ys)])
  }

  function CanonicalName(params: Dict): Atom {
    if CANONICAL in params && params[CANONICAL].One? then params[CANONICAL].a else Null
  }

  function CleanReply(c: Client, reply: Dict): Option<Dict> {
    match CleanDict(c, reply) case None => None case Some(d) => Some(PopKeys(c, d))
  }

  /** The user client's steps before `clean`. */
  function UserReply(reply: Dict): Option<Dict> {
    match UserCerts(reply) case None => None case Some(d) => UserPrincipals(d)
  }

  /** `munge_response`, class by class. */
  ghost function CanonReply(c: Client, params: Dict, reply: Dict): Option<Dict> {
    match c.kind
    case BaseKind => CleanReply(c, reply)
    case Group => CleanReply(c, reply)
    case Caacl => CleanReply(c, ShortKeys(reply))
    case User =>
      (match UserReply(reply)
       case None => None
       case Some(d) => CleanReply(c, d))
    case Service =>
      match CleanReply(c, reply)
      case None => None
      case Some(d) => ServicePrincipals(ServiceCert(d), CanonicalName(params))
  }

  // ---------- get_slice ----------

  function GetSlice(c: Client, d: Dict): Slice {
    Slice(map k | k in d && !IsList(c, k) && d[k].One? :: d[k].a,
          map k | k in d && IsList(c, k) && d[k].Many? :: Elems(d[k].xs))
  }

  /** `reply` is one way of writing down what a client sees of `o`. */
  ghost predicate Represents(c: Client, params: Dict, reply: Dict, o: Option<Obj>) {
    && (c.kind == Caacl ==> Unambiguous(reply))
    && CanonReply(c, params, reply).Some?
    && Shaped(c, CanonReply(c, params, reply).value)
    && GetSlice(c, CanonReply(c, params, reply).value) == ViewOf(c, o)
  }

  // ---------- laws of clean ----------

  /** Cleaning twice is cleaning once. */
  lemma CleanIdempotent(c: Client, d: Dict)
    requires CleanDict(c, d).Some?
    ensures CleanDict(c, CleanDict(c, d).value) == CleanDict(c, d)
  {
    var e := CleanDict(c, d).value;
    forall k | k in e ensures CleanValue(c.paramData[k], e[k]) == Keep(e[k]) {
      assert Kept(c, d, k);
    }
    assert !Raises(c, e);
    assert CleanDict(c, e).value == e;
  }

  /** The value that counts: of a list given for a scalar, the first. */
  function FirstOf(v: Raw): Option<Atom> {
    match v case One(a) => Some(a) case Many(xs) => if xs == [] then None else Some(xs[0])
  }

  /** Null counts as not given, at the head of a list too, and so does the empty list. An empty
      list for a scalar raises, and so does text for an integer that is no numeral. */
  lemma CleanEmptyOrRaises(t: PType, v: Raw)
    ensures CleanValue(t, v).Skip? <==> FirstOf(v) == Some(Null) || (t == TList && FirstOf(v) == None)
    ensures CleanValue(t, v).Raise? <==>
      t != TList && (FirstOf(v) == None || (t == TInt && FirstOf(v).value.Str? && ParseInt(FirstOf(v).value.s).None?))
  {
  }

  /** A value of its type is kept as it is. */
  lemma CleanKeeps(t: PType, v: Raw)
    requires if t == TList then v.Many? && v.xs != [] && v.xs[0] != Null else v.One? && Typed(t, v.a)
    ensures CleanValue(t, v) == Keep(v)
  {
  }

  /** Two ways of writing one value of type `t`: scalars may be wrapped in a list whose
      first element counts, a one-element list may stand unwrapped, booleans may be the
      words TRUE and FALSE in any case, integers may be numerals. */
  ghost predicate SameScalar(t: PType, a: Atom, b: Atom) {
    || a == b
    || (t == TBool && a.Str? && Lower(a.s) in {"true", "false"} && b == Bool(Lower(a.s) == "true"))
    || (t == TInt && a.Str? && b.Int? && ParseInt(a.s) == Some(b.n))
  }

  ghost predicate Spelling(t: PType, v: Raw, w: Raw) {
    if t == TList then v == w || (v.One? && w == Many([v.a]))
    else
      && (v.Many? ==> v.xs != []) && w.One?
      && SameScalar(t, if v.Many? then v.xs[0] else v.a, w.a)
  }

  /** Respelling any of its values does not change what a dict cleans to. */
  lemma CleanForgetsSpelling(c: Client, d: Dict, e: Dict)
    requires d.Keys == e.Keys
    requires forall k | k in d && k in c.paramData :: Spelling(c.paramData[k], d[k], e[k])
    ensures CleanDict(c, d) == CleanDict(c, e)
  {
    forall k | k in d && k in c.paramData
      ensures CleanValue(c.paramData[k], d[k]) == CleanValue(c.paramData[k], e[k])
    {
      var t := c.paramData[k];
      assert Spelling(t, d[k], e[k]);
    }
    forall k | k in d ensures Kept(c, d, k) == Kept(c, e, k) { }
    assert Raises(c, d) == Raises(c, e);
    if !Raises(c, d) {
      assert CleanDict(c, d).value == CleanDict(c, e).value;
    }
  }
}
