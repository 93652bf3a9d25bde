/** How the server spells an object in a reply to `find`, class by class, and when
    `munge_response` recovers the object from it. */
module Replies {
  import opened Strings
  import opened IpaModel
  import opened Canonical
  import opened Keys
  import opened Clients

  /** `reply` gives attribute `k` of the view in some spelling, or, if the view has none,
      nothing for it that survives `clean` (request keys and foreign attributes apart). */
  ghost predicate SpellsAt(c: Client, reply: Dict, v: Slice, k: string) {
    && (k in v.scalars ==>
          KnownScalar(c, k) && v.scalars[k] != Null
          && k in reply && CleanValue(c.paramData[k], reply[k]) == Keep(One(v.scalars[k])))
    && (k in v.lists ==>
          KnownList(c, k) && k in reply && reply[k].Many?
          && CleanValue(TList, reply[k]) == Keep(reply[k]) && Elems(reply[k].xs) == v.lists[k])
    && (k in reply && Known(c, k) && k !in v.scalars && k !in v.lists ==>
          CleanValue(c.paramData[k], reply[k]) == Skip)
    && (k in reply && k in c.paramData && k in c.paramKeys ==> !CleanValue(c.paramData[k], reply[k]).Raise?)
  }

  ghost predicate Spells(c: Client, reply: Dict, v: Slice) {
    forall k :: SpellsAt(c, reply, v, k)
  }

  lemma SpelledCleans(c: Client, reply: Dict, v: Slice)
    requires Spells(c, reply, v)
    ensures CleanReply(c, reply).Some?
    ensures var d := CleanReply(c, reply).value;
      Shaped(c, d) && GetSlice(c, d) == v && d.Keys == v.scalars.Keys + v.lists.Keys
      && (forall k | k in v.lists :: d[k] == reply[k])
      && (forall k | k in v.scalars :: d[k] == One(v.scalars[k]))
  {
    forall k ensures k in reply && k in c.paramData ==> !CleanValue(c.paramData[k], reply[k]).Raise? {
      assert SpellsAt(c, reply, v, k);
    }
    assert !Raises(c, reply);
    var d := CleanReply(c, reply).value;
    CleanShaped(c, reply);
    forall k ensures (k in d <==> k in v.scalars || k in v.lists)
      && (k in v.lists ==> IsList(c, k) && d[k] == reply[k] && d[k].Many? && Elems(d[k].xs) == v.lists[k])
      && (k in v.scalars ==> !IsList(c, k) && d[k] == One(v.scalars[k]))
    {
      assert SpellsAt(c, reply, v, k);
    }
    SliceIs(c, d, v);
  }

  lemma SliceIs(c: Client, d: Dict, v: Slice)
    requires d.Keys == v.scalars.Keys + v.lists.Keys
    requires forall k | k in v.scalars :: !IsList(c, k) && d[k] == One(v.scalars[k])
    requires forall k | k in v.lists :: IsList(c, k) && d[k].Many? && Elems(d[k].xs) == v.lists[k]
    ensures GetSlice(c, d) == v
  {
    var s := GetSlice(c, d);
    assert s.scalars == v.scalars;
    assert s.lists == v.lists;
  }

  // ---------- the plain spelling ----------

  /** The API sends scalars wrapped in lists, booleans as words and integers as numerals. */
  function Wire(a: Atom): Raw {
    match a
    case Bool(b) => Many([Str(if b then "TRUE" else "FALSE")])
    case Int(n) => Many([Str(DecimalInt(n))])
    case _ => Many([a])
  }

  lemma LowerWords()
    ensures Lower("TRUE") == "true" && Lower("FALSE") == "false"
  {
  }

  lemma WireCleans(t: PType, a: Atom)
    requires t != TList && Typed(t, a)
    ensures CleanValue(t, Wire(a)) == Keep(One(a))
  {
    match a {
      case Int(n) => ParseDecimalInt(n);
      case Bool(b) =>
        LowerWords();
        hide Lower;
      case _ =>
    }
  }

  ghost function WireLists(v: Slice): Dict {
    map k | k in v.lists :: Many(Enumeration(v.lists[k]))
  }

  function WireScalars(v: Slice): Dict {
    map k | k in v.scalars :: Wire(v.scalars[k])
  }

  /** Other attributes of a reply: foreign ones, and the object's key. */
  ghost predicate Foreign(c: Client, extra: Dict) {
    forall k | k in extra :: !Known(c, k) && (k in c.paramData ==> !CleanValue(c.paramData[k], extra[k]).Raise?)
  }

  ghost function WireReply(c: Client, o: Obj, extra: Dict): Dict {
    WireScalars(View(c, o)) + WireLists(View(c, o)) + extra
  }

  lemma ViewStrings(c: Client, o: Obj)
    requires WellTyped(c, o)
    ensures var v := View(c, o);
      && (forall k | k in v.scalars :: Known(c, k) && !IsList(c, k) && Typed(c.paramData[k], v.scalars[k]))
      && (forall k, a | k in v.lists && a in v.lists[k] :: a.Str? && (k, a) in o.pairs)
      && (forall k | k in v.lists :: KnownList(c, k) && v.lists[k] != {})
  {
    forall k, a | k in View(c, o).lists && a in View(c, o).lists[k] ensures a.Str? && (k, a) in o.pairs {
      ValuesOf(o.pairs, k, a);
      assert (k, a).0 == k;
    }
  }

  lemma ListCleans(vs: set<Atom>)
    requires vs != {} && forall a | a in vs :: a.Str?
    ensures CleanValue(TList, Many(Enumeration(vs))) == Keep(Many(Enumeration(vs)))
  {
    var xs := Enumeration(vs);
    var a :| a in vs;
    assert a in Elems(xs);
    assert xs[0] in Elems(xs);
  }

  lemma WireSpells(c: Client, o: Obj, extra: Dict)
    requires WellTyped(c, o) && Foreign(c, extra)
    ensures Spells(c, WireReply(c, o, extra), View(c, o))
  {
    var v := View(c, o);
    ViewStrings(c, o);
    var r := WireReply(c, o, extra);
    forall k ensures SpellsAt(c, r, v, k) {
      if k in v.scalars { WireCleans(c.paramData[k], v.scalars[k]); }
      if k in v.lists { ListCleans(v.lists[k]); }
    }
  }

  /** group: the plain spelling is undone. */
  lemma GroupReply(params: Dict, o: Obj, extra: Dict)
    requires WellTyped(GROUP, o) && Foreign(GROUP, extra)
    ensures Represents(GROUP, params, WireReply(GROUP, o, extra), Some(o))
  {
    WireSpells(GROUP, o, extra);
    SpelledCleans(GROUP, WireReply(GROUP, o, extra), View(GROUP, o));
  }

  /** For a missing object the reply is empty, in every class. */
  lemma MissingReply(c: Client, params: Dict)
    ensures Represents(c, params, map[], None)
  {
    forall k ensures SpellsAt(c, map[], NOTHING, k) { }
    SpelledCleans(c, map[], NOTHING);
    assert ShortKeys(map[]) == map[];
  }

  // ---------- caacl: long keys ----------

  lemma LongThenShort(k: string)
    requires k in CAACL_LISTS
    ensures CaaclLongKey(LongKey(k)) && ShortKey(LongKey(k)) == k
  {
    LongIsJoined(k);
    PrefixOf(k);
    NoUnderscore(k);
    JoinedSecondWord(Stem(k), k);
    hide Stem, CAACL_LISTS, CaaclLongKey, SecondWord, LongKey;
  }

  lemma JoinedSecondWord(stem: string, k: string)
    requires '_' !in stem && '_' !in k
    ensures '_' in stem + "_" + k && SecondWord(stem + "_" + k) == k
  {
    var l := stem + "_" + k;
    assert l == stem + ['_'] + k && l[|stem|] == '_';
    IndexOfAfter(stem, '_', k);
    assert l[|stem| + 1..] == k;
    assert k[..IndexOf(k, '_')] == k;
  }

  lemma PrefixOf(k: string)
    requires k in CAACL_LISTS
    ensures CaaclLongKey(Stem(k) + "_" + k)
  {
    var l := Stem(k) + "_" + k;
    var i := if Stem(k) == "memberuser" then 0 else if Stem(k) == "memberhost" then 1
      else if Stem(k) == "memberservice" then 2 else if Stem(k) == "ipamembercertprofile" then 3 else 4;
    assert CAACL_PREFIXES[i] == Stem(k) + "_";
    assert StartsWith(l, CAACL_PREFIXES[i]);
  }

  /** The caacl reply: list attributes under their long keys. `extra` may hold anything whose
      key is neither long nor a parameter's, and the object's key. */
  ghost function CaaclReply(v: Slice, extra: Dict): Dict {
    WireScalars(v) + extra + LongLists(v)
  }

  const CAACL_LONG: map<string, string> :=
    map["memberuser_user" := "user", "memberuser_group" := "group", "memberhost_host" := "host",
        "memberhost_hostgroup" := "hostgroup", "memberservice_service" := "service",
        "ipamembercertprofile_certprofile" := "certprofile", "ipamemberca_ca" := "ca"]

  ghost function LongLists(v: Slice): Dict {
    map l | l in CAACL_LONG && CAACL_LONG[l] in v.lists :: Many(Enumeration(v.lists[CAACL_LONG[l]]))
  }

  ghost predicate PlainKeys(d: Dict) {
    forall k | k in d :: !CaaclLongKey(k)
  }

  lemma ScalarKeysPlain()
    ensures !CaaclLongKey("description") && !CaaclLongKey("ipaenabledflag") && !CaaclLongKey("cn")
  {
    assert forall i | 0 <= i < |CAACL_PREFIXES| :: CAACL_PREFIXES[i][0] == 'm' || CAACL_PREFIXES[i][3] == 'm';
  }

  /** caacl: renaming the long keys and cleaning recovers the object. */
  lemma CaaclRecovered(params: Dict, o: Obj, extra: Dict)
    requires WellTyped(CAACL, o) && Foreign(CAACL, extra) && PlainKeys(extra)
    ensures Represents(CAACL, params, CaaclReply(View(CAACL, o), extra), Some(o))
  {
    var v := View(CAACL, o);
    WireSpells(CAACL, o, extra);
    SpelledCleans(CAACL, WireReply(CAACL, o, extra), v);
    CaaclViewKeys(o);
    KeysBack(CaaclReply(View(CAACL, o), extra), WireReply(CAACL, o, extra), v, extra);
  }

  lemma CaaclViewKeys(o: Obj)
    ensures View(CAACL, o).lists.Keys <= CAACL_LISTS
    ensures forall k | k in View(CAACL, o).scalars :: k !in CAACL_LISTS && !CaaclLongKey(k)
  {
    CaaclLists();
    ScalarKeysPlain();
    forall k | k in View(CAACL, o).scalars ensures k !in CAACL_LISTS && !CaaclLongKey(k) { CaaclScalarKey(k); }
  }

  lemma CaaclScalarKey(k: string)
    requires KnownScalar(CAACL, k)
    ensures k in {"description", "ipaenabledflag"} && k !in CAACL_LISTS
  {
  }

  lemma LongAndShort(l: string)
    requires l in CAACL_LONG
    ensures CaaclLongKey(l) && ShortKey(l) == CAACL_LONG[l] && CAACL_LONG[l] in CAACL_LISTS && LongKey(CAACL_LONG[l]) == l
  {
    assert LongKey(CAACL_LONG[l]) == l;
    LongThenShort(CAACL_LONG[l]);
    hide ShortKey, CaaclLongKey;
  }

  lemma LongIn(k: string)
    requires k in CAACL_LISTS
    ensures LongKey(k) in CAACL_LONG && CAACL_LONG[LongKey(k)] == k && ShortKey(LongKey(k)) == k
  {
    LongThenShort(k);
    hide ShortKey, CaaclLongKey;
    LongOf(k);
  }

  lemma LongOf(k: string)
    requires k in CAACL_LISTS
    ensures LongKey(k) in CAACL_LONG && CAACL_LONG[LongKey(k)] == k
  {
    hide ShortKey, CaaclLongKey;
  }

  lemma KeysBack(long: Dict, plain: Dict, v: Slice, extra: Dict)
    requires long == WireScalars(v) + extra + LongLists(v) && plain == WireScalars(v) + WireLists(v) + extra
    requires v.lists.Keys <= CAACL_LISTS && extra.Keys !! v.lists.Keys
    requires forall k | k in v.scalars :: k !in CAACL_LISTS && !CaaclLongKey(k)
    requires PlainKeys(extra)
    ensures Unambiguous(long) && ShortKeys(long) == plain
  {
    hide CAACL_LISTS, CaaclLongKey, ShortKey, ShortKeys, Unambiguous, LongKey, LongLists, WireLists, Wire;
    var rest := WireScalars(v) + extra;
    ListKeysBack(v);
    RestPlain(v, extra);
    hide WireScalars, PlainKeys;
    RenamedBack(rest, LongLists(v), WireLists(v));
    SwapApart(WireScalars(v), WireLists(v), extra);
  }

  lemma SwapApart(a: Dict, b: Dict, e: Dict)
    requires b.Keys !! e.Keys
    ensures a + b + e == a + e + b
  {
  }

  lemma RestPlain(v: Slice, extra: Dict)
    requires v.lists.Keys <= CAACL_LISTS && extra.Keys !! v.lists.Keys && PlainKeys(extra)
    requires forall k | k in v.scalars :: k !in CAACL_LISTS && !CaaclLongKey(k)
    ensures forall k | k in WireScalars(v) + extra :: !CaaclLongKey(k) && k !in v.lists
  {
    hide CAACL_LISTS, CaaclLongKey, Wire;
    assert WireScalars(v).Keys == v.scalars.Keys;
  }

  lemma ListKeysBack(v: Slice)
    requires v.lists.Keys <= CAACL_LISTS
    ensures WireLists(v).Keys == v.lists.Keys
    ensures forall l | l in LongLists(v) :: CaaclLongKey(l) && LongKey(ShortKey(l)) == l
    ensures forall l | l in LongLists(v) :: ShortKey(l) in WireLists(v) && WireLists(v)[ShortKey(l)] == LongLists(v)[l]
    ensures forall k | k in WireLists(v) :: LongKey(k) in LongLists(v) && ShortKey(LongKey(k)) == k
  {
    forall l | l in LongLists(v) ensures CaaclLongKey(l) && ShortKey(l) == CAACL_LONG[l] && LongKey(ShortKey(l)) == l {
      LongAndShort(l);
    }
    forall k | k in v.lists ensures LongKey(k) in CAACL_LONG && CAACL_LONG[LongKey(k)] == k && ShortKey(LongKey(k)) == k {
      LongIn(k);
    }
    hide LongKey, CAACL_LONG, CAACL_LISTS, CaaclLongKey, ShortKey;
  }

  /** Renaming leaves `rest` alone and turns the long list part into the plain one. */
  lemma RenamedBack(rest: Dict, long: Dict, plain: Dict)
    requires forall k | k in rest :: !CaaclLongKey(k) && k !in plain
    requires forall l | l in long :: CaaclLongKey(l) && LongKey(ShortKey(l)) == l
    requires forall l | l in long :: ShortKey(l) in plain && plain[ShortKey(l)] == long[l]
    requires forall k | k in plain :: LongKey(k) in long && ShortKey(LongKey(k)) == k
    ensures Unambiguous(rest + long) && ShortKeys(rest + long) == rest + plain
  {
    var all := rest + long;
    NoneClash(rest, long, plain);
    forall k | k in rest ensures ShortKey(k) == k { ShortKeyShape(k); }
    hide LongKey, CaaclLongKey, ShortKey, ShortKeys, Unambiguous;
    forall l | l in all ensures ShortKey(l) in rest + plain && (rest + plain)[ShortKey(l)] == all[l] { }
    forall k | k in rest + plain ensures exists l | l in all :: ShortKey(l) == k {
      if k in plain { assert LongKey(k) in all; } else { assert k in all; }
    }
    ShortKeysUnique(all, rest + plain);
  }

  lemma NoneClash(rest: Dict, long: Dict, plain: Dict)
    requires forall k | k in rest :: !CaaclLongKey(k) && k !in plain
    requires forall l | l in long :: CaaclLongKey(l) && ShortKey(l) in plain && LongKey(ShortKey(l)) == l
    ensures Unambiguous(rest + long)
  {
    hide LongKey, CaaclLongKey, ShortKey;
    var all := rest + long;
    forall l, m | l in all && m in all && l != m ensures ShortKey(l) != ShortKey(m) {
      ApartWhenRenamed(rest, long, plain, l, m);
    }
  }

  lemma ApartWhenRenamed(rest: Dict, long: Dict, plain: Dict, l: string, m: string)
    requires forall k | k in rest :: !CaaclLongKey(k) && k !in plain
    requires forall l | l in long :: CaaclLongKey(l) && ShortKey(l) in plain && LongKey(ShortKey(l)) == l
    requires l in rest + long && m in rest + long && l != m
    ensures ShortKey(l) != ShortKey(m)
  {
    assert l in rest ==> ShortKey(l) == l;
    assert m in rest ==> ShortKey(m) == m;
    hide LongKey, CaaclLongKey, ShortKey;
  }

  // ---------- user: wrapped certificates, principals with their realm ----------

  function Wrap(a: Atom): Atom { if a.Str? then B64(a.s) else a }

  function WithRealm(a: Atom, realm: string): Atom { if a.Str? then Str(a.s + "@" + realm) else a }

  ghost function Names(v: Slice, k: string): seq<Atom> {
    if k in v.lists then Enumeration(v.lists[k]) else []
  }

  /** Certificates come wrapped; the principals come with their realm, the canonical one
      among them. */
  ghost function UserSpelling(base: Dict, v: Slice, canonical: Atom, realm: string): Dict {
    (if CERT in v.lists then base[CERT := Many(MapAtoms(Wrap, Names(v, CERT)))] else base)
    [PRINCIPAL := Many([canonical] + MapAtoms(a => WithRealm(a, realm), Names(v, PRINCIPAL)))]
  }

  /** Aliases without a realm of their own. */
  ghost predicate BareNames(v: Slice) {
    PRINCIPAL in v.lists ==> forall a | a in v.lists[PRINCIPAL] :: a.Str? && '@' !in a.s
  }

  /** The form in which the client sees an alias. */
  function Shown(a: Atom, realm: string): Atom { Principal(WithRealm(a, realm)) }

  function ShownAll(xs: seq<Atom>, realm: string): seq<Atom> { MapAtoms(a => Shown(a, realm), xs) }

  /** An alias loses the realm the server adds, unless it carries one of its own: then it keeps
      both. */
  lemma ShownIs(a: Atom, realm: string)
    requires a.Str? && '@' !in realm
    ensures Shown(a, realm) == if '@' in a.s then WithRealm(a, realm) else a
  {
    var n := a.s;
    var s := n + "@" + realm;
    if '@' in n {
      var i := IndexOf(s, '@');
      assert s[|n|] == '@' && n in {n};
      FirstAt(n, "@" + realm);
      assert s == n + ("@" + realm) && i < |n|;
      assert s[i + 1..][|n| - i - 1] == '@';
    } else {
      assert s == n + ['@'] + realm && s[|n|] == '@';
      IndexOfAfter(n, '@', realm);
      assert s[..|n|] == n && s[|n| + 1..] == realm;
    }
  }

  lemma {:induction false} FirstAt(a: string, b: string)
    requires '@' in a
    ensures IndexOf(a + b, '@') < |a|
  {
    if a[0] != '@' {
      assert (a + b)[1..] == a[1..] + b;
      FirstAt(a[1..], b);
    }
  }

  lemma CertsUnwrapped(d: Dict, xs: seq<Atom>)
    requires CERT in d && d[CERT] == Many(MapAtoms(Wrap, xs)) && forall x | x in xs :: x.Str?
    ensures UserCerts(d) == Some(d[CERT := Many(xs)])
  {
    assert MapAtoms(Unwrap, MapAtoms(Wrap, xs)) == xs;
  }

  /** The canonical name as the reply gives it: bare, or wrapped in a list. */
  predicate CanonicalSpelling(spelled: Raw, canonical: Atom) {
    spelled == One(canonical) || spelled == Many([canonical])
  }

  /** What of the canonical name is left among the principals. */
  function Seen(spelled: Raw, canonical: Atom): seq<Atom> {
    if spelled.One? then [] else [Principal(canonical)]
  }

  lemma PrincipalsSeen(d: Dict, spelled: Raw, canonical: Atom, realm: string, xs: seq<Atom>)
    requires canonical.Str? && CanonicalSpelling(spelled, canonical) && CANONICAL in d && d[CANONICAL] == spelled
    requires PRINCIPAL in d && d[PRINCIPAL] == Many([canonical] + MapAtoms(a => WithRealm(a, realm), xs))
    requires forall x | x in xs :: x.Str?
    ensures UserPrincipals(d) == Some(d[PRINCIPAL := Many(Seen(spelled, canonical) + ShownAll(xs, realm))])
  {
    var named := MapAtoms(a => WithRealm(a, realm), xs);
    var left: seq<Atom> := if spelled.One? then [] else [canonical];
    assert WithoutName([canonical] + named, NameOf(d)) == left + named by {
      assert RemoveFirst([canonical] + named, canonical) == named;
    }
    forall i | 0 <= i < |xs| ensures named[i].Str? { assert xs[i] in xs; }
    forall y: Atom | y in left + named ensures y.Str? { assert y in left || y in named; }
    PrincipalsAppend(left, named);
    hide Principal, RemoveFirst, WithRealm, WithoutName, NameOf;
    assert MapAtoms(Principal, left) == Seen(spelled, canonical);
    assert MapAtoms(Principal, named) == ShownAll(xs, realm);
  }

  lemma PrincipalsAppend(a: seq<Atom>, b: seq<Atom>)
    ensures MapAtoms(Principal, a + b) == MapAtoms(Principal, a) + MapAtoms(Principal, b)
  {
    hide Principal;
  }

  /** What the client finds among the principals. */
  ghost function SeenNames(v: Slice, spelled: Raw, canonical: Atom, realm: string): seq<Atom> {
    Seen(spelled, canonical) + ShownAll(Names(v, PRINCIPAL), realm)
  }

  lemma UserSpellingUndone(base: Dict, v: Slice, spelled: Raw, canonical: Atom, realm: string)
    requires canonical.Str? && CanonicalSpelling(spelled, canonical)
    requires CANONICAL in base && base[CANONICAL] == spelled
    requires CERT in v.lists ==> CERT in base && base[CERT] == Many(Names(v, CERT))
    requires forall k, a | k in v.lists && a in v.lists[k] :: a.Str?
    requires CERT !in v.lists ==> CERT !in base
    ensures UserReply(UserSpelling(base, v, canonical, realm)) ==
      Some(base[PRINCIPAL := Many(SeenNames(v, spelled, canonical, realm))])
  {
    var r := UserSpelling(base, v, canonical, realm);
    if CERT in v.lists {
      forall x | x in Names(v, CERT) ensures x.Str? { assert x in Elems(Names(v, CERT)); }
      CertsUnwrapped(r, Names(v, CERT));
    }
    assert UserCerts(r).Some?;
    var d := UserCerts(r).value;
    assert d == base[PRINCIPAL := r[PRINCIPAL]];
    forall x | x in Names(v, PRINCIPAL) ensures x.Str? { assert x in Elems(Names(v, PRINCIPAL)); }
    PrincipalsSeen(d, spelled, canonical, realm, Names(v, PRINCIPAL));
    hide UserCerts, UserPrincipals, Seen, Principal, ShownAll;
    var names := Many(SeenNames(v, spelled, canonical, realm));
    assert d[PRINCIPAL := names] == base[PRINCIPAL := names];
  }

  /** The view with these principals. */
  function ShownView(v: Slice, names: seq<Atom>): Slice {
    Slice(v.scalars, if names == [] then v.lists - {PRINCIPAL} else v.lists[PRINCIPAL := Elems(names)])
  }

  lemma ShownIsViewIff(v: Slice, names: seq<Atom>)
    requires PRINCIPAL in v.lists ==> v.lists[PRINCIPAL] != {}
    ensures ShownView(v, names) == v <==> Elems(names) == Get(v.lists, PRINCIPAL)
  {
    if names == [] {
      assert v.lists - {PRINCIPAL} == v.lists <==> PRINCIPAL !in v.lists;
    } else {
      assert names[0] in Elems(names);
      if v.lists[PRINCIPAL := Elems(names)] == v.lists { assert v.lists[PRINCIPAL] == Elems(names); }
      if Elems(names) == Get(v.lists, PRINCIPAL) { assert v.lists[PRINCIPAL := Elems(names)] == v.lists; }
    }
  }

  /** The reply of a user in either spelling of the canonical name. */
  ghost function UserWire(v: Slice, extra: Dict, spelled: Raw, canonical: Atom, realm: string): Dict {
    UserSpelling(WireScalars(v) + WireLists(v) + extra[CANONICAL := spelled], v, canonical, realm)
  }

  lemma UserSees(params: Dict, o: Obj, extra: Dict, spelled: Raw, canonical: Atom, realm: string)
    requires WellTyped(USER, o) && Foreign(USER, extra)
    requires canonical.Str? && CanonicalSpelling(spelled, canonical)
    ensures var r := CanonReply(USER, params, UserWire(View(USER, o), extra, spelled, canonical, realm));
      r.Some? && Shaped(USER, r.value)
      && Canonical.GetSlice(USER, r.value) == ShownView(View(USER, o), SeenNames(View(USER, o), spelled, canonical, realm))
  {
    var v := View(USER, o);
    var extra' := extra[CANONICAL := spelled];
    UserKeys();
    UserView(o);
    assert Foreign(USER, extra');
    WireSpells(USER, o, extra');
    hide USER, Spells, View, WellTyped, UserSpelling, CanonReply, Shaped, Canonical.GetSlice, Unambiguous,
         ShownView, SeenNames;
    var base := WireReply(USER, o, extra');
    UserUndone(params, base, v, extra', spelled, canonical, realm);
  }

  /** user: certificates are unwrapped, realms stripped, and a bare canonical name is dropped. The
      reply stands for the object exactly if no alias carries a realm of its own and the
      canonical name is bare or an alias: wrapped in a list, as the API wraps single values, it
      stays among the principals. */
  lemma UserRecovered(params: Dict, o: Obj, extra: Dict, spelled: Raw, canonical: Atom, realm: string)
    requires WellTyped(USER, o) && Foreign(USER, extra)
    requires canonical.Str? && '@' !in realm && CanonicalSpelling(spelled, canonical)
    ensures Represents(USER, params, UserWire(View(USER, o), extra, spelled, canonical, realm), Some(o)) <==>
      BareNames(View(USER, o)) && (spelled.One? || (PRINCIPAL, Principal(canonical)) in o.pairs)
  {
    UserIsUser();
    UserKeys();
    UserView(o);
    hide USER, UserWire, CanonReply, Shaped, Canonical.GetSlice, Principal, WellTyped, Foreign, View;
    var v := View(USER, o);
    UserSees(params, o, extra, spelled, canonical, realm);
    PrincipalsOf(USER, o, Principal(canonical));
    ShownIsViewIff(v, SeenNames(v, spelled, canonical, realm));
    hide BareNames, SeenNames, ShownView, Names;
    SameNamesIff(v, spelled, canonical, realm);
  }

  lemma PrincipalsOf(c: Client, o: Obj, name: Atom)
    requires KnownList(c, PRINCIPAL)
    ensures name in Get(View(c, o).lists, PRINCIPAL) <==> (PRINCIPAL, name) in o.pairs
    ensures PRINCIPAL in View(c, o).lists ==> View(c, o).lists[PRINCIPAL] != {}
  {
    ValuesOf(o.pairs, PRINCIPAL, name);
  }

  /** The principals are the aliases again exactly for bare ones, the canonical name aside. */
  lemma SameNamesIff(v: Slice, spelled: Raw, canonical: Atom, realm: string)
    requires '@' !in realm && forall a | a in Get(v.lists, PRINCIPAL) :: a.Str?
    ensures Elems(SeenNames(v, spelled, canonical, realm)) == Get(v.lists, PRINCIPAL) <==>
      BareNames(v) && (spelled.One? || Principal(canonical) in Get(v.lists, PRINCIPAL))
  {
    var names, seen := Names(v, PRINCIPAL), Seen(spelled, canonical);
    var shown := ShownAll(names, realm);
    assert Elems(names) == Get(v.lists, PRINCIPAL);
    assert Elems(seen + shown) == Elems(seen) + Elems(shown);
    assert Elems(seen) == if spelled.One? then {} else {Principal(canonical)};
    hide Principal, Seen, ShownAll, Elems, Names;
    if BareNames(v) {
      BareShown(names, realm);
    } else {
      RealmShows(names, realm);
    }
  }

  /** A name with a realm of its own is shown as one that is no alias. */
  lemma RealmShows(names: seq<Atom>, realm: string)
    requires '@' !in realm && (forall a | a in Elems(names) :: a.Str?) && exists a | a in Elems(names) :: '@' in a.s
    ensures !(Elems(ShownAll(names, realm)) <= Elems(names))
  {
    var a :| a in Elems(names) && '@' in a.s;
    Longest(Elems(names), a);
    var b :| b in Elems(names) && '@' in b.s && forall x | x in Elems(names) && '@' in x.s :: |x.s| <= |b.s|;
    hide Shown;
    LongerName(b, realm);
    var i :| 0 <= i < |names| && names[i] == b;
    assert ShownAll(names, realm)[i] == Shown(b, realm);
    assert Shown(b, realm) in Elems(ShownAll(names, realm));
  }

  lemma LongerName(a: Atom, realm: string)
    requires a.Str? && '@' in a.s && '@' !in realm
    ensures var b := Shown(a, realm); b.Str? && '@' in b.s && |b.s| > |a.s|
  {
    ShownIs(a, realm);
    var s := a.s + "@" + realm;
    assert s[|a.s|] == '@';
  }

  lemma BareShown(names: seq<Atom>, realm: string)
    requires '@' !in realm && forall a | a in Elems(names) :: a.Str? && '@' !in a.s
    ensures ShownAll(names, realm) == names
  {
    forall i | 0 <= i < |names| ensures ShownAll(names, realm)[i] == names[i] {
      assert names[i] in Elems(names);
      ShownIs(names[i], realm);
    }
    hide Shown;
  }

  /** Among the names with a realm of their own there is a longest one. */
  lemma {:induction false} Longest(s: set<Atom>, a: Atom)
    requires (forall x | x in s :: x.Str?) && a in s && '@' in a.s
    ensures exists b | b in s && '@' in b.s :: forall x | x in s && '@' in x.s :: |x.s| <= |b.s|
    decreases |s|
  {
    if x :| x in s && '@' in x.s && |x.s| > |a.s| {
      var rest := s - {a};
      Longest(rest, x);
      var b :| b in rest && '@' in b.s && forall y | y in rest && '@' in y.s :: |y.s| <= |b.s|;
      assert forall y | y in s && '@' in y.s :: y in rest || y == a;
    }
  }

  /** The object with one more value. */
  function WithValue(o: Obj, p: Pair): Obj { Obj(o.scalars, o.pairs + {p}) }

  function AliasOf(canonical: Atom): Pair { (PRINCIPAL, Principal(canonical)) }

  /** The wrapped reply of a user with bare aliases always stands for the user with the
      canonical name among them. */
  lemma WrappedNameIsAlias(params: Dict, o: Obj, extra: Dict, canonical: Atom, realm: string)
    requires WellTyped(USER, o) && Foreign(USER, extra) && BareNames(View(USER, o))
    requires canonical.Str? && '@' !in realm
    ensures Represents(USER, params, UserWire(View(USER, o), extra, Many([canonical]), canonical, realm),
                       Some(WithValue(o, AliasOf(canonical))))
  {
    UserIsUser();
    UserKeys();
    hide USER, UserWire, CanonReply, Shaped, Canonical.GetSlice, Principal, WellTyped, Foreign, View, ShownView, KnownList;
    var v := View(USER, o);
    UserSees(params, o, extra, Many([canonical]), canonical, realm);
    var names := Names(v, PRINCIPAL);
    assert Elems(names) == Get(v.lists, PRINCIPAL);
    BareShown(names, realm);
    assert Elems([Principal(canonical)] + names) == Get(v.lists, PRINCIPAL) + {Principal(canonical)};
    AliasView(USER, o, Principal(canonical), [Principal(canonical)] + names);
  }

  lemma AliasView(c: Client, o: Obj, name: Atom, names: seq<Atom>)
    requires KnownList(c, PRINCIPAL) && Elems(names) == Get(View(c, o).lists, PRINCIPAL) + {name}
    ensures View(c, Obj(o.scalars, o.pairs + {(PRINCIPAL, name)})) == ShownView(View(c, o), names)
  {
    var now := Obj(o.scalars, o.pairs + {(PRINCIPAL, name)});
    var w := ShownView(View(c, o), names);
    assert name in Elems(names) && names != [];
    forall k ensures Values(now.pairs, k) == if k == PRINCIPAL then Values(o.pairs, k) + {name} else Values(o.pairs, k) {
      OneMoreValue(o.pairs, PRINCIPAL, name, k);
    }
    assert Get(View(c, o).lists, PRINCIPAL) == Values(o.pairs, PRINCIPAL);
    hide Values;
    forall k ensures (k in View(c, now).lists <==> k in w.lists) && (k in w.lists ==> View(c, now).lists[k] == w.lists[k]) {
      assert k == PRINCIPAL ==> name in Values(now.pairs, k);
    }
  }

  lemma OneMoreValue(ps: set<Pair>, k: string, name: Atom, l: string)
    ensures Values(ps + {(k, name)}, l) == if l == k then Values(ps, l) + {name} else Values(ps, l)
  {
    var all := ps + {(k, name)};
    forall a ensures a in Values(all, l) <==> a in Values(ps, l) + (if l == k then {name} else {}) {
      ValuesOf(all, l, a);
      ValuesOf(ps, l, a);
    }
  }

  lemma UserUndone(params: Dict, base: Dict, v: Slice, extra: Dict, spelled: Raw, canonical: Atom, realm: string)
    requires base == WireScalars(v) + WireLists(v) + extra && Spells(USER, base, v)
    requires Foreign(USER, extra) && CANONICAL in extra && extra[CANONICAL] == spelled
    requires canonical.Str? && CanonicalSpelling(spelled, canonical)
    requires KnownList(USER, CERT) && KnownList(USER, PRINCIPAL)
    requires forall k | k in v.scalars :: !IsList(USER, k)
    requires forall k, a | k in v.lists && a in v.lists[k] :: a.Str?
    ensures var r := CanonReply(USER, params, UserSpelling(base, v, canonical, realm));
      r.Some? && Shaped(USER, r.value)
      && Canonical.GetSlice(USER, r.value) == ShownView(v, SeenNames(v, spelled, canonical, realm))
  {
    UserIsUser();
    hide USER, Spells, UserReply, Foreign, UserSpelling, Shaped, CleanReply, WireScalars, WireLists,
         Canonical.GetSlice, ShownView, CanonicalSpelling;
    UserBase(base, v, extra);
    UserSpellingUndone(base, v, spelled, canonical, realm);
    var names := SeenNames(v, spelled, canonical, realm);
    SeenStrings(v, spelled, canonical, realm);
    hide SeenNames;
    PrincipalsAllowed(USER, base, v, names);
    SpelledCleans(USER, base[PRINCIPAL := Many(names)], ShownView(v, names));
  }

  lemma SeenStrings(v: Slice, spelled: Raw, canonical: Atom, realm: string)
    requires canonical.Str? && forall k, a | k in v.lists && a in v.lists[k] :: a.Str?
    ensures forall x | x in SeenNames(v, spelled, canonical, realm) :: x.Str?
  {
    var names := Names(v, PRINCIPAL);
    forall i | 0 <= i < |names| ensures ShownAll(names, realm)[i].Str? {
      assert names[i] in Elems(names);
    }
    forall x: Atom | x in SeenNames(v, spelled, canonical, realm) ensures x.Str? {
      assert x in Seen(spelled, canonical) || x in ShownAll(names, realm);
    }
  }

  /** The principals may be any strings. */
  lemma PrincipalsAllowed(c: Client, base: Dict, v: Slice, names: seq<Atom>)
    requires Spells(c, base, v) && KnownList(c, PRINCIPAL) && forall x | x in names :: x.Str?
    ensures Spells(c, base[PRINCIPAL := Many(names)], ShownView(v, names))
  {
    var next, w := base[PRINCIPAL := Many(names)], ShownView(v, names);
    assert names != [] ==> names[0] in names;
    forall l ensures SpellsAt(c, next, w, l) {
      assert SpellsAt(c, base, v, l);
      if l == PRINCIPAL && names != [] { assert next[l] == Many(names) && w.lists[l] == Elems(names); }
    }
  }

  lemma UserView(o: Obj)
    requires WellTyped(USER, o)
    ensures var v := View(USER, o);
      && (forall k | k in v.scalars :: !IsList(USER, k))
      && (forall k, a | k in v.lists && a in v.lists[k] :: a.Str?)
  {
    ViewStrings(USER, o);
    hide USER, View;
  }

  lemma UserIsUser() ensures USER.kind == User { }

  lemma UserKeys()
    ensures KnownList(USER, CERT) && KnownList(USER, PRINCIPAL) && CANONICAL !in USER.paramData
  {
    UserKnown();
    UserForeign();
    assert CERT in USER_LISTS && PRINCIPAL in USER_LISTS;
    hide USER_STRS, USER_LISTS, USER_BASE, USER_ROUTES, STANDARD;
  }

  lemma UserBase(base: Dict, v: Slice, extra: Dict)
    requires base == WireScalars(v) + WireLists(v) + extra && CANONICAL in extra
    requires KnownList(USER, CERT) && Foreign(USER, extra)
    requires forall k | k in v.scalars :: !IsList(USER, k)
    ensures base[CANONICAL] == extra[CANONICAL]
    ensures CERT in v.lists ==> CERT in base && base[CERT] == Many(Names(v, CERT))
    ensures CERT !in v.lists ==> CERT !in base
  {
    hide USER;
  }

  // ---------- service: one wrapped certificate, the canonical name among the principals ----------

  ghost function ServiceSpelling(base: Dict, v: Slice, canonical: Atom): Dict {
    (if CERT in v.scalars then base[CERT := Many([Wrap(v.scalars[CERT])])] else base)
    [PRINCIPAL := Many([canonical] + Names(v, PRINCIPAL))]
  }

  /** What the client has after `clean`, before the service's own steps. */
  ghost function ServiceMiddle(v: Slice, canonical: Atom): Slice {
    Slice(if CERT in v.scalars then v.scalars[CERT := Wrap(v.scalars[CERT])] else v.scalars,
          v.lists[PRINCIPAL := Get(v.lists, PRINCIPAL) + {canonical}])
  }

  lemma NamesWith(v: Slice, canonical: Atom)
    ensures Elems([canonical] + Names(v, PRINCIPAL)) == Get(v.lists, PRINCIPAL) + {canonical}
    ensures RemoveFirst([canonical] + Names(v, PRINCIPAL), canonical) == Names(v, PRINCIPAL)
    ensures Names(v, PRINCIPAL) == [] <==> Get(v.lists, PRINCIPAL) == {}
  {
    assert Elems([canonical] + Names(v, PRINCIPAL)) == {canonical} + Elems(Names(v, PRINCIPAL));
    var names := Names(v, PRINCIPAL);
    assert Elems(names) == Get(v.lists, PRINCIPAL);
    assert names != [] ==> names[0] in Elems(names);
  }

  lemma ServiceSpells(c: Client, base: Dict, v: Slice, canonical: Atom)
    requires Spells(c, base, v) && canonical.Str?
    requires KnownList(c, PRINCIPAL) && KnownScalar(c, CERT) && c.paramData[CERT] == TStr
    requires CERT in v.scalars ==> v.scalars[CERT].Str?
    ensures Spells(c, ServiceSpelling(base, v, canonical), ServiceMiddle(v, canonical))
  {
    var m, r := ServiceMiddle(v, canonical), ServiceSpelling(base, v, canonical);
    forall k ensures SpellsAt(c, r, m, k) {
      assert SpellsAt(c, base, v, k);
      if k == PRINCIPAL {
        NamesWith(v, canonical);
      } else if k == CERT {
        CertSpelled(c, base, v, canonical);
      } else {
        SameElsewhere(c, base, v, canonical, k);
      }
    }
  }

  lemma CertSpelled(c: Client, base: Dict, v: Slice, canonical: Atom)
    requires SpellsAt(c, base, v, CERT) && KnownScalar(c, CERT) && c.paramData[CERT] == TStr
    requires CERT in v.scalars ==> v.scalars[CERT].Str?
    ensures SpellsAt(c, ServiceSpelling(base, v, canonical), ServiceMiddle(v, canonical), CERT)
  {
  }

  lemma SameElsewhere(c: Client, base: Dict, v: Slice, canonical: Atom, k: string)
    requires SpellsAt(c, base, v, k) && k != CERT && k != PRINCIPAL
    ensures SpellsAt(c, ServiceSpelling(base, v, canonical), ServiceMiddle(v, canonical), k)
  {
  }

  /** The dict after `clean`: certificate still wrapped, canonical name among the principals. */
  ghost predicate Middle(c: Client, d: Dict, v: Slice, canonical: Atom) {
    && d.Keys == v.scalars.Keys + v.lists.Keys + {PRINCIPAL}
    && (forall k | k in v.scalars :: !IsList(c, k) && v.scalars[k] != Null
          && d[k] == One(if k == CERT then Wrap(v.scalars[k]) else v.scalars[k]))
    && (forall k | k in v.lists :: IsList(c, k) && d[k].Many? && v.lists[k] != {} && Null !in v.lists[k])
    && (forall k | k in v.lists && k != PRINCIPAL :: Elems(d[k].xs) == v.lists[k])
    && d[PRINCIPAL] == Many([canonical] + Names(v, PRINCIPAL))
  }

  /** From there to the object: the certificate is unwrapped, the canonical name goes, and
      with it the attribute when there is no alias. */
  lemma ServiceSteps(c: Client, d: Dict, v: Slice, canonical: Atom)
    requires Middle(c, d, v, canonical) && IsList(c, PRINCIPAL) && !IsList(c, CERT)
    requires CERT in v.scalars ==> v.scalars[CERT].Str?
    ensures var r := ServicePrincipals(ServiceCert(d), canonical);
      r.Some? && Shaped(c, r.value) && GetSlice(c, r.value) == v
  {
    NamesWith(v, canonical);
    var names := Names(v, PRINCIPAL);
    var e := ServiceCert(d);
    assert CERT in d <==> CERT in v.scalars by { assert CERT in v.lists ==> IsList(c, CERT); }
    assert e.Keys == d.Keys && forall k | k in d && k != CERT :: e[k] == d[k];
    assert CERT in v.scalars ==> e[CERT] == One(v.scalars[CERT]);
    assert canonical in e[PRINCIPAL].xs by { assert e[PRINCIPAL].xs[0] == canonical; }
    var f := ServicePrincipals(e, canonical).value;
    assert f == if names == [] then e - {PRINCIPAL} else e[PRINCIPAL := Many(names)];
    hide ServiceCert, ServicePrincipals, Wrap;
    FinalDict(c, e, f, v);
  }

  lemma FinalDict(c: Client, e: Dict, f: Dict, v: Slice)
    requires IsList(c, PRINCIPAL) && e.Keys == v.scalars.Keys + v.lists.Keys + {PRINCIPAL}
    requires f == if Names(v, PRINCIPAL) == [] then e - {PRINCIPAL} else e[PRINCIPAL := Many(Names(v, PRINCIPAL))]
    requires forall k | k in v.scalars :: !IsList(c, k) && v.scalars[k] != Null && e[k] == One(v.scalars[k])
    requires forall k | k in v.lists :: IsList(c, k) && v.lists[k] != {} && Null !in v.lists[k]
    requires forall k | k in v.lists && k != PRINCIPAL :: e[k].Many? && Elems(e[k].xs) == v.lists[k]
    ensures Shaped(c, f) && GetSlice(c, f) == v
  {
    var names := Names(v, PRINCIPAL);
    assert names != [] ==> names[0] in Elems(names);
    assert PRINCIPAL in v.lists ==> Elems(names) == v.lists[PRINCIPAL];
    assert f.Keys == v.scalars.Keys + v.lists.Keys;
    forall k | k in v.lists ensures f[k].Many? && Elems(f[k].xs) == v.lists[k] && f[k].xs != [] && f[k].xs[0] != Null {
      var a :| a in v.lists[k];
      assert a in f[k].xs;
      assert f[k].xs[0] in Elems(f[k].xs);
    }
    SliceIs(c, f, v);
  }

  lemma CleanedIsMiddle(c: Client, reply: Dict, v: Slice, canonical: Atom)
    requires Spells(c, reply, ServiceMiddle(v, canonical))
    requires PRINCIPAL in reply && reply[PRINCIPAL] == Many([canonical] + Names(v, PRINCIPAL))
    requires CleanReply(c, reply).Some?
    requires forall k | k in v.scalars :: !IsList(c, k) && v.scalars[k] != Null
    requires forall k | k in v.lists :: IsList(c, k) && v.lists[k] != {} && forall a | a in v.lists[k] :: a.Str?
    ensures Middle(c, CleanReply(c, reply).value, v, canonical)
  {
    var m := ServiceMiddle(v, canonical);
    MiddleSlice(v, canonical);
    hide ServiceMiddle, Wrap;
    SpelledCleans(c, reply, m);
    var d := CleanReply(c, reply).value;
    hide CleanReply, GetSlice, Shaped, Elems, CleanValue, KnownScalar, KnownList;
    forall k | k in m.lists ensures d[k].Many? && Elems(d[k].xs) == m.lists[k] { assert SpellsAt(c, reply, m, k); }
    NullNotStr(v);
    hide Spells, SpellsAt;
  }

  lemma MiddleSlice(v: Slice, canonical: Atom)
    ensures var m := ServiceMiddle(v, canonical);
      && m.scalars.Keys == v.scalars.Keys && m.lists.Keys == v.lists.Keys + {PRINCIPAL}
      && (forall k | k in v.scalars :: m.scalars[k] == if k == CERT then Wrap(v.scalars[k]) else v.scalars[k])
      && (forall k | k in v.lists && k != PRINCIPAL :: m.lists[k] == v.lists[k])
  {
  }

  lemma NullNotStr(v: Slice)
    requires forall k | k in v.lists :: v.lists[k] != {} && forall a | a in v.lists[k] :: a.Str?
    ensures forall k | k in v.lists :: Null !in v.lists[k]
  {
  }

  lemma ServiceFacts()
    ensures SERVICE.kind == Service && KnownList(SERVICE, PRINCIPAL) && KnownScalar(SERVICE, CERT)
    ensures SERVICE.paramData[CERT] == TStr && IsList(SERVICE, PRINCIPAL) && !IsList(SERVICE, CERT)
  {
    ServiceKnown();
    ServiceFlags();
    assert PRINCIPAL in SERVICE_LISTS && CERT in SERVICE_STRS;
    hide SERVICE_LISTS, SERVICE_STRS, SERVICE_FLAGS, SERVICE_BASE, SERVICE_ROUTES, STANDARD, SERVICE_DEFAULTS;
  }

  lemma ServiceView(o: Obj)
    requires WellTyped(SERVICE, o)
    ensures var v := View(SERVICE, o);
      && (CERT in v.scalars ==> v.scalars[CERT].Str?)
      && (forall k | k in v.scalars :: !IsList(SERVICE, k) && v.scalars[k] != Null)
      && (forall k | k in v.lists :: IsList(SERVICE, k) && v.lists[k] != {} && forall a | a in v.lists[k] :: a.Str?)
  {
    ServiceFacts();
    ViewStrings(SERVICE, o);
    hide SERVICE, View;
  }

  lemma SpelledPrincipals(base: Dict, v: Slice, canonical: Atom)
    ensures PRINCIPAL in ServiceSpelling(base, v, canonical)
    ensures ServiceSpelling(base, v, canonical)[PRINCIPAL] == Many([canonical] + Names(v, PRINCIPAL))
  {
  }

  /** service: cleaning, unwrapping and dropping the canonical name recovers the object exactly
      if the service is given by its canonical name. Given by a name that is none of its
      principals, as without its realm, the reply raises; given by an alias, that alias is
      dropped instead. */
  lemma ServiceRecovered(params: Dict, o: Obj, extra: Dict, canonical: Atom)
    requires WellTyped(SERVICE, o) && Foreign(SERVICE, extra) && canonical.Str?
    ensures var reply := ServiceSpelling(WireReply(SERVICE, o, extra), View(SERVICE, o), canonical);
      var given := if CANONICAL in params && params[CANONICAL].One? then params[CANONICAL].a else Null;
      && (Represents(SERVICE, params, reply, Some(o)) <==> given == canonical)
      && (CanonReply(SERVICE, params, reply).None? <==> given != canonical && (PRINCIPAL, given) !in o.pairs)
  {
    var v := View(SERVICE, o);
    var reply := ServiceSpelling(WireReply(SERVICE, o, extra), v, canonical);
    hide SERVICE, Spells, Foreign, WellTyped, View, WireReply, CleanReply, Shaped, IsList, Known, ServiceMiddle, GetSlice;
    hide ServiceSpelling, Middle, Unambiguous, CanonReply, KnownList, KnownScalar, Names, CanonicalName;
    GivenName(params);
    ServiceFacts();
    ServiceView(o);
    WireSpells(SERVICE, o, extra);
    PrincipalsOf(SERVICE, o, CanonicalName(params));
    if CanonicalName(params) == canonical {
      ServiceUndone(params, WireReply(SERVICE, o, extra), v, canonical);
    } else {
      ServiceNamedOtherwise(params, WireReply(SERVICE, o, extra), v, canonical);
    }
  }

  lemma GivenName(params: Dict)
    ensures CanonicalName(params) == if CANONICAL in params && params[CANONICAL].One? then params[CANONICAL].a else Null
  {
  }

  lemma ServiceNamedOtherwise(params: Dict, base: Dict, v: Slice, canonical: Atom)
    requires Spells(SERVICE, base, v) && canonical.Str? && CanonicalName(params) != canonical
    requires CERT in v.scalars ==> v.scalars[CERT].Str?
    requires forall k | k in v.scalars :: !IsList(SERVICE, k) && v.scalars[k] != Null
    requires forall k | k in v.lists :: IsList(SERVICE, k) && v.lists[k] != {} && forall a | a in v.lists[k] :: a.Str?
    ensures var r := CanonReply(SERVICE, params, ServiceSpelling(base, v, canonical));
      && (r.None? <==> CanonicalName(params) !in Get(v.lists, PRINCIPAL))
      && (r.Some? ==> GetSlice(SERVICE, r.value) != v)
  {
    ServiceFacts();
    hide SERVICE, Spells, CleanReply, Shaped, IsList, Known, ServiceMiddle, ServiceSpelling, CanonicalName;
    var reply := ServiceSpelling(base, v, canonical);
    ServiceSpells(SERVICE, base, v, canonical);
    SpelledCleans(SERVICE, reply, ServiceMiddle(v, canonical));
    SpelledPrincipals(base, v, canonical);
    CleanedIsMiddle(SERVICE, reply, v, canonical);
    OtherNameGoes(SERVICE, CleanReply(SERVICE, reply).value, v, canonical, CanonicalName(params));
  }

  /** The name given is taken from the principals, and missed there if it is an alias. */
  lemma OtherNameGoes(c: Client, d: Dict, v: Slice, canonical: Atom, given: Atom)
    requires Middle(c, d, v, canonical) && IsList(c, PRINCIPAL) && given != canonical
    ensures var r := ServicePrincipals(ServiceCert(d), given);
      && (r.None? <==> given !in Get(v.lists, PRINCIPAL))
      && (r.Some? ==> GetSlice(c, r.value) != v)
  {
    hide ServiceCert, Middle, Names, ServicePrincipals, RemoveFirst;
    var names := Names(v, PRINCIPAL);
    PrincipalsKept(c, d, v, canonical);
    var e := ServiceCert(d);
    assert given in [canonical] + names <==> given in names;
    NameTaken(e, [canonical] + names, given);
    if given in names {
      var left := RemoveFirst([canonical] + names, given);
      OtherRemoved(canonical, names, given);
      assert given in Elems(names) && PRINCIPAL in v.lists;
      var r := ServicePrincipals(e, given).value;
      assert given !in GetSlice(c, r).lists[PRINCIPAL] && given in v.lists[PRINCIPAL];
    }
  }

  lemma PrincipalsKept(c: Client, d: Dict, v: Slice, canonical: Atom)
    requires Middle(c, d, v, canonical)
    ensures var e := ServiceCert(d);
      PRINCIPAL in e && e[PRINCIPAL] == Many([canonical] + Names(v, PRINCIPAL))
    ensures Distinct(Names(v, PRINCIPAL)) && Elems(Names(v, PRINCIPAL)) == Get(v.lists, PRINCIPAL)
  {
  }

  lemma NameTaken(e: Dict, names: seq<Atom>, given: Atom)
    requires PRINCIPAL in e && e[PRINCIPAL] == Many(names)
    ensures var r := ServicePrincipals(e, given);
      && (r.None? <==> given !in names)
      && (r.Some? && |names| > 1 ==> r.value == e[PRINCIPAL := Many(RemoveFirst(names, given))])
  {
  }

  lemma OtherRemoved(canonical: Atom, names: seq<Atom>, given: Atom)
    requires given != canonical && Distinct(names)
    ensures var left := RemoveFirst([canonical] + names, given);
      left != [] && given !in left
  {
    assert RemoveFirst([canonical] + names, given) == [canonical] + RemoveFirst(names, given);
    RemovedFromDistinct(names, given);
  }

  lemma {:induction false} RemovedFromDistinct(xs: seq<Atom>, x: Atom)
    requires Distinct(xs)
    ensures x !in RemoveFirst(xs, x)
  {
    if xs != [] {
      if xs[0] == x {
        assert forall i | 0 <= i < |xs| - 1 :: xs[1..][i] == xs[i + 1];
      } else {
        RemovedFromDistinct(xs[1..], x);
      }
    }
  }

  lemma ServiceUndone(params: Dict, base: Dict, v: Slice, canonical: Atom)
    requires Spells(SERVICE, base, v) && canonical.Str? && CanonicalName(params) == canonical
    requires CERT in v.scalars ==> v.scalars[CERT].Str?
    requires forall k | k in v.scalars :: !IsList(SERVICE, k) && v.scalars[k] != Null
    requires forall k | k in v.lists :: IsList(SERVICE, k) && v.lists[k] != {} && forall a | a in v.lists[k] :: a.Str?
    ensures var r := CanonReply(SERVICE, params, ServiceSpelling(base, v, canonical));
      r.Some? && Shaped(SERVICE, r.value) && GetSlice(SERVICE, r.value) == v
  {
    ServiceFacts();
    hide SERVICE, Spells, CleanReply, Shaped, IsList, Known, ServiceMiddle, GetSlice, ServiceSpelling, Middle;
    var reply := ServiceSpelling(base, v, canonical);
    ServiceSpells(SERVICE, base, v, canonical);
    SpelledCleans(SERVICE, reply, ServiceMiddle(v, canonical));
    SpelledPrincipals(base, v, canonical);
    CleanedIsMiddle(SERVICE, reply, v, canonical);
    ServiceSteps(SERVICE, CleanReply(SERVICE, reply).value, v, canonical);
  }
}
