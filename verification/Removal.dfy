/** Which client classes can ever remove an object with `absent`. */
module Removal {
  import opened Strings
  import opened IpaModel
  import opened Canonical
  import opened Requests
  import opened Clients
  import opened Keys

  /** Ansible passes every parameter that has a default, with the default or another value. */
  ghost predicate FilledIn(c: Client, params: Dict) {
    forall k | k in c.defaults && k in c.paramData :: k in params && params[k].One? && params[k].a != Null
  }

  /** With these parameters a run removes the object. */
  ghost predicate Removes(c: Client, params: Dict) {
    && FilledIn(c, params) && CanonParams(c, Absent, params).Some?
    && RemovesObject(Absent, GetSlice(c, CanonParams(c, Absent, params).value))
  }

  ghost predicate Removable(c: Client) { exists params :: Removes(c, params) }

  /** A class can remove objects exactly if none of their attributes has a default: a default
      always counts as an attribute to take away. */
  lemma RemovableIff(c: Client)
    requires ValidDefaults(c)
    ensures Removable(c) <==> forall k | k in c.defaults :: !Known(c, k)
  {
    if k :| k in c.defaults && Known(c, k) {
      forall params ensures !Removes(c, params) {
        if FilledIn(c, params) && CanonParams(c, Absent, params).Some? { DefaultSurvives(c, params, k); }
      }
    } else {
      assert FilledIn(c, map[]);
      assert CleanDict(c, map[]) == Some(map[]);
      assert CanonParams(c, Absent, map[]) == Some(map[]);
      assert GetSlice(c, map[]) == NOTHING;
      assert Removes(c, map[]);
    }
  }

  lemma DefaultSurvives(c: Client, params: Dict, k: string)
    requires ValidDefaults(c) && FilledIn(c, params) && CanonParams(c, Absent, params).Some?
    requires k in c.defaults && Known(c, k)
    ensures GetSlice(c, CanonParams(c, Absent, params).value) != NOTHING
  {
    var d := CleanDict(c, params).value;
    CleanShaped(c, params);
    assert !Raises(c, params) && Kept(c, params, k);
    assert k in d && k in PopKeys(c, d);
    assert k in GetSlice(c, PopKeys(c, d)).scalars;
  }

  lemma TableRemoval(c: Client, own: Scalars)
    requires ValidDefaults(c) && c.defaults == STANDARD + own && STANDARD_KEYS !! c.paramData.Keys
    requires forall k | k in own :: Known(c, k)
    ensures Removable(c) <==> own == map[]
  {
    RemovableIff(c);
    assert STANDARD.Keys == STANDARD_KEYS;
    hide STANDARD_KEYS, ValidDefaults, Removable;
    if k :| k in own { assert k in c.defaults; }
  }

  /** Groups and access rules can be removed, users and services never: they have defaults for
      the lock and for the ticket flags. */
  lemma WhoCanRemove()
    ensures Removable(GROUP) && Removable(CAACL) && !Removable(USER) && !Removable(SERVICE)
  {
    GroupRemovable();
    CaaclRemovable();
    UserNeverRemoves();
    ServiceNeverRemoves();
    hide Removable;
  }

  lemma GroupRemovable()
    ensures Removable(GROUP)
  {
    GroupDefaults();
    hide STANDARD, GROUP_ROUTES, ValidDefaults, Removable;
    TableRemoval(GROUP, map[]);
  }

  lemma CaaclRemovable()
    ensures Removable(CAACL)
  {
    CaaclDefaults();
    hide STANDARD, CAACL_ROUTES, ValidDefaults, Removable;
    TableRemoval(CAACL, map[]);
  }

  lemma UserNeverRemoves()
    ensures !Removable(USER)
  {
    UserDefaultsValid();
    UserStandard();
    UserListsApart();
    hide USER_ROUTES, STANDARD, USER_STRS, USER_LISTS, USER_BASE, STANDARD_KEYS, ValidDefaults, Removable;
    var own := map["nsaccountlock" := Bool(false)];
    assert "nsaccountlock" in own;
    TableRemoval(USER, own);
  }

  lemma ServiceNeverRemoves()
    ensures !Removable(SERVICE)
  {
    ServiceDefaultsValid();
    ServiceStandard();
    ServiceFlags();
    ServiceDefaultKeys();
    assert "ipakrbokasdelegate" in SERVICE_DEFAULTS;
    hide SERVICE_ROUTES, STANDARD, SERVICE_STRS, SERVICE_LISTS, SERVICE_BASE, SERVICE_FLAGS, STANDARD_KEYS,
         SERVICE_DEFAULTS, ValidDefaults, Removable;
    TableRemoval(SERVICE, SERVICE_DEFAULTS);
  }
}
