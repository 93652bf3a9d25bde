/** The parameter names of the client classes, and that the sets they form are apart. */
module Keys {
  const STANDARD_KEYS: set<string> := {"state", "ipa_prot", "ipa_host", "ipa_port", "ipa_user", "validate_certs"}

  const GROUP_BASE: set<string> := {"description", "gidnumber", "nonposix", "external"}
  const GROUP_LISTS: set<string> := {"member_group", "member_user"}

  const CAACL_LISTS: set<string> := {"user", "group", "host", "hostgroup", "service", "certprofile", "ca"}

  const SERVICE_STRS: set<string> := {"krbcanonicalname", "usercertificate", "krbprincipalauthind"}
  const SERVICE_FLAGS: set<string> := {"ipakrbrequirespreauth", "ipakrbokasdelegate", "ipakrboktoauthasdelegate"}
  const WRITE_ATTRS: set<string> :=
    {"ipaallowedtoperform_write_keys_user", "ipaallowedtoperform_write_keys_group",
     "ipaallowedtoperform_write_keys_host", "ipaallowedtoperform_write_keys_hostgroup"}
  const READ_ATTRS: set<string> :=
    {"ipaallowedtoperform_read_keys_user", "ipaallowedtoperform_read_keys_group",
     "ipaallowedtoperform_read_keys_host", "ipaallowedtoperform_read_keys_hostgroup"}
  const SERVICE_LISTS: set<string> := {"krbprincipalname", "managedby_host"} + WRITE_ATTRS + READ_ATTRS

  /** `write_keytab_*` and `read_keytab_*` name no parameter. */
  const SERVICE_BASE: set<string> :=
    SERVICE_STRS + SERVICE_FLAGS + {"krbprincipalname"} +
    {"write_keytab_users", "write_keytab_groups", "write_keytab_hosts", "write_keytab_hostgroups",
     "read_keytab_users", "read_keytab_groups", "read_keytab_hosts", "read_keytab_hostgroups"}

  const USER_STRS: set<string> :=
    {"givenname", "sn", "cn", "displayname", "initials", "homedirectory", "gecos", "loginshell",
     "userpassword", "street", "l", "st", "postalcode", "orgunit", "title", "manager", "carlicense",
     "ipasshpubkey", "user_auth_type", "category", "radius", "radius_username", "departmentnumber",
     "employeenumber", "employeetype", "preferredlanguage"}
  const USER_BASE_LISTS: set<string> := {"mail", "telephonenumber", "mobile", "pager", "fax"}
  const USER_BASE: set<string> := USER_STRS + {"gidnumber"} + USER_BASE_LISTS
  const USER_LISTS: set<string> := USER_BASE_LISTS + {"usercertificate", "krbprincipalname"}

  /** Can be written before `=`, and is not one of the item's own keys. */
  predicate GoodName(k: string) {
    '=' !in k && k != "addattr" && k != "delattr" && k != "all"
  }

  lemma ServiceStrNames() ensures forall k | k in SERVICE_STRS + SERVICE_FLAGS :: GoodName(k) { }

  lemma WriteNames() ensures forall k | k in WRITE_ATTRS :: GoodName(k) { }

  lemma ReadNames() ensures forall k | k in READ_ATTRS :: GoodName(k) { }

  lemma ServiceNames()
    ensures forall k | k in SERVICE_STRS + SERVICE_FLAGS + SERVICE_LISTS :: GoodName(k)
  {
    ServiceStrNames();
    WriteNames();
    ReadNames();
    assert GoodName("krbprincipalname") && GoodName("managedby_host");
  }

  lemma ServiceStandard()
    ensures STANDARD_KEYS !! SERVICE_STRS + SERVICE_FLAGS + SERVICE_LISTS
  {
  }

  lemma ServiceStandardBase()
    ensures STANDARD_KEYS !! SERVICE_BASE
  {
  }

  lemma ServiceFlags()
    ensures SERVICE_FLAGS !! SERVICE_LISTS && "krbcanonicalname" !in SERVICE_FLAGS + SERVICE_LISTS
    ensures SERVICE_STRS !! SERVICE_LISTS + SERVICE_FLAGS
  {
  }

  lemma ServiceRowsApart()
    ensures WRITE_ATTRS !! READ_ATTRS && "managedby_host" !in WRITE_ATTRS + READ_ATTRS
    ensures "krbprincipalname" !in WRITE_ATTRS + READ_ATTRS
  {
  }

  lemma ServiceBaseApart()
    ensures (WRITE_ATTRS + {"managedby_host"}) !! SERVICE_BASE
  {
  }

  lemma ReadBaseApart()
    ensures READ_ATTRS !! SERVICE_BASE
  {
  }

  lemma ServiceSplit()
    ensures SERVICE_LISTS - SERVICE_BASE == {"managedby_host"} + WRITE_ATTRS + READ_ATTRS
    ensures "krbprincipalname" in SERVICE_BASE
  {
    ServiceBaseApart();
    ReadBaseApart();
  }

  lemma UserStrNames() ensures forall k | k in USER_STRS :: GoodName(k) { }

  lemma UserNames()
    ensures forall k | k in USER_STRS + USER_LISTS + {"uid", "gidnumber", "nsaccountlock"} :: GoodName(k)
  {
    UserStrNames();
  }

  lemma UserStandard()
    ensures STANDARD_KEYS !! USER_STRS
    ensures STANDARD_KEYS !! USER_LISTS + {"uid", "gidnumber", "nsaccountlock"}
  {
  }

  lemma UserApart()
    ensures {"uid", "nsaccountlock", "usercertificate", "krbprincipalname"} !! USER_BASE
  {
  }

  lemma UserListsApart()
    ensures USER_LISTS !! USER_STRS + {"uid", "gidnumber", "nsaccountlock"}
  {
    assert forall k | k in USER_LISTS :: k !in USER_STRS;
    hide USER_STRS;
  }

  lemma UserSplit()
    ensures USER_LISTS - USER_BASE == {"usercertificate", "krbprincipalname"}
  {
    UserApart();
    hide USER_STRS;
  }

  lemma UserForeign()
    ensures "krbcanonicalname" !in USER_STRS + USER_LISTS + {"uid", "gidnumber", "nsaccountlock"}
  {
  }

  // ---------- caacl reply keys ----------

  function Stem(k: string): string {
    if k == "user" || k == "group" then "memberuser"
    else if k == "host" || k == "hostgroup" then "memberhost"
    else if k == "service" then "memberservice"
    else if k == "certprofile" then "ipamembercertprofile"
    else "ipamemberca"
  }

  function LongKey(k: string): string {
    if k == "user" then "memberuser_user" else if k == "group" then "memberuser_group"
    else if k == "host" then "memberhost_host" else if k == "hostgroup" then "memberhost_hostgroup"
    else if k == "service" then "memberservice_service"
    else if k == "certprofile" then "ipamembercertprofile_certprofile"
    else if k == "ca" then "ipamemberca_ca" else k
  }

  lemma LongIsJoined(k: string)
    requires k in CAACL_LISTS
    ensures LongKey(k) == Stem(k) + "_" + k
  {
    MembersJoined();
    OthersJoined();
  }

  lemma MembersJoined()
    ensures "memberuser_user" == "memberuser" + "_" + "user" && "memberuser_group" == "memberuser" + "_" + "group"
    ensures "memberhost_host" == "memberhost" + "_" + "host"
    ensures "memberhost_hostgroup" == "memberhost" + "_" + "hostgroup"
  {
  }

  lemma OthersJoined()
    ensures "memberservice_service" == "memberservice" + "_" + "service" && "ipamemberca_ca" == "ipamemberca" + "_" + "ca"
    ensures "ipamembercertprofile_certprofile" == "ipamembercertprofile" + "_" + "certprofile"
  {
  }

  lemma NoUnderscore(k: string)
    requires k in CAACL_LISTS
    ensures '_' !in k && '_' !in Stem(k)
  {
  }
}
