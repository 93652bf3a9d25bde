/** The certificate client (lib/modules/ipa_cert.py): request and revoke, on top of the
    engine's `find`, delta and queue. */
module Certs {
  import opened Strings
  import opened IpaModel
  import opened Changes
  import opened Requests
  import opened Clients

  datatype Status = VALID | REVOKED | EXPIRED
  datatype Certificate = Certificate(serial: string, status: Status, subject: string, cacn: string)

  /** The module's parameters; `None` is a parameter that was not given. */
  datatype CertParams = CertParams(principal: string, cacn: string, req: Option<string>, serial: Option<string>,
                             reason: Option<int>)

  const CERT_BASE: set<string> := {"principal", "cacn", "revocation_reason"}

  const CERT_PARAMS: map<string, PType> :=
    map["principal" := TStr, "cacn" := TStr, "req" := TStr, "serial_number" := TStr, "revocation_reason" := TInt]

  const CERTS := Client(BaseKind, CERT_PARAMS,
    STANDARD + map["cacn" := Str("ipa")], {"serial_number", "req"}, CERT_BASE, None, false, [])

  /** `re.match(r'CN=([^,]*),O=', subject)`: the common name, or the subject itself. */
  function SubjectToPrincipal(subject: string): string {
    if "CN=" <= subject then
      var rest := subject[3..];
      var i := IndexOf(rest, ',');
      if ",O=" <= rest[i..] then rest[..i] else subject
    else subject
  }

  lemma PrincipalOfSubject(name: string, org: string)
    requires ',' !in name
    ensures SubjectToPrincipal("CN=" + name + ",O=" + org) == name
  {
    hide IndexOf, SubjectToPrincipal;
    var tail := ",O=" + org;
    var rest := name + tail;
    Regrouped("CN=" + name + ",O=" + org, "CN=", rest, name, ",O=", org);
    Prefixed("CN=", rest);
    Prefixed(name, tail);
    Prefixed(",O=", org);
    assert rest == name + [','] + ("O=" + org);
    IndexOfAfter(name, ',', "O=" + org);
    PartsOfSubject("CN=" + name + ",O=" + org, rest, name);
  }

  lemma PartsOfSubject(s: string, rest: string, name: string)
    requires "CN=" <= s && s[3..] == rest && IndexOf(rest, ',') == |name|
    requires ",O=" <= rest[|name|..] && rest[..|name|] == name
    ensures SubjectToPrincipal(s) == name
  {
    hide IndexOf;
  }

  lemma Prefixed(a: string, b: string)
    ensures a <= a + b && (a + b)[|a|..] == b && (a + b)[..|a|] == a
  {
  }

  /** The subject names `name` as its common name, right in front of an organisation. */
  predicate Names(subject: string, name: string, org: string) { ',' !in name && subject == "CN=" + name + ",O=" + org }

  ghost predicate NamesNobody(subject: string) { forall name, org :: !Names(subject, name, org) }

  /** Of a subject the common name counts; any other text, such as a plain principal, stands
      for itself. */
  lemma PrincipalIs(s: string)
    ensures forall name, org | Names(s, name, org) :: SubjectToPrincipal(s) == name
    ensures NamesNobody(s) ==> SubjectToPrincipal(s) == s
    ensures !("CN=" <= s) ==> NamesNobody(s)
  {
    hide SubjectToPrincipal, Names;
    forall name, org | Names(s, name, org) ensures SubjectToPrincipal(s) == name && "CN=" <= s {
      NamedPrincipal(s, name, org);
    }
    if SubjectToPrincipal(s) != s { PrincipalOfPattern(s); }
  }

  lemma NamedPrincipal(s: string, name: string, org: string)
    requires Names(s, name, org)
    ensures SubjectToPrincipal(s) == name && "CN=" <= s
  {
    hide SubjectToPrincipal;
    PrincipalOfSubject(name, org);
    assert s == "CN=" + (name + ",O=" + org);
  }

  lemma SubjectHasParts(s: string)
    requires SubjectToPrincipal(s) != s
    ensures "CN=" <= s && ",O=" <= s[3..][IndexOf(s[3..], ',')..]
  {
    hide IndexOf;
  }

  lemma PrincipalOfPattern(s: string)
    requires SubjectToPrincipal(s) != s
    ensures exists name, org :: Names(s, name, org)
  {
    hide SubjectToPrincipal, IndexOf;
    SubjectHasParts(s);
    var i := IndexOf(s[3..], ',');
    CutTwice(s, "CN=", i, ",O=");
    assert Names(s, s[3..][..i], s[3..][i..][3..]);
  }

  lemma CutTwice(s: string, a: string, i: nat, b: string)
    requires a <= s && i <= |s[|a|..]| && b <= s[|a|..][i..]
    ensures var rest := s[|a|..];
      s == a + rest[..i] + b + rest[i..][|b|..]
  {
    var rest := s[|a|..];
    Cut(a, s);
    Cut(b, rest[i..]);
    assert rest == rest[..i] + rest[i..];
    Regrouped(s, a, rest, rest[..i], b, rest[i..][|b|..]);
  }

  lemma Cut(prefix: string, s: string)
    requires prefix <= s
    ensures s == prefix + s[|prefix|..]
  {
  }

  lemma Regrouped(s: string, a: string, rest: string, b: string, c: string, d: string)
    requires rest == b + (c + d)
    ensures s == a + rest <==> s == a + b + c + d
  {
  }

  // ---------- find ----------

  /** What the server's `cert_find` returns for a query. */
  predicate Found(r: CertParams, x: Certificate) {
    && SubjectToPrincipal(x.subject) == SubjectToPrincipal(r.principal)
    && x.cacn == r.cacn
    && (r.serial.Some? && r.serial.value != "" ==> x.serial == r.serial.value)
  }

  /** Which certificates with a common name are found: those of the name that was given, or of
      the common name in it, from the same authority, with the serial number if one was given. */
  lemma FoundByName(r: CertParams, x: Certificate, name: string, org: string)
    requires Names(x.subject, name, org)
    ensures NamesNobody(r.principal) ==> (Found(r, x) <==> name == r.principal && x.cacn == r.cacn && SerialFits(r, x))
    ensures forall n, o | Names(r.principal, n, o) :: Found(r, x) <==> name == n && x.cacn == r.cacn && SerialFits(r, x)
  {
    PrincipalIs(x.subject);
    PrincipalIs(r.principal);
    hide SubjectToPrincipal, NamesNobody;
  }

  predicate SerialFits(r: CertParams, x: Certificate) { r.serial.None? || r.serial.value == "" || r.serial.value == x.serial }

  /** ... and what `find_filter` leaves of it. */
  predicate Candidate(r: CertParams, x: Certificate) { Found(r, x) && x.status == VALID }

  /** The position of the last candidate, or -1. */
  function LastValid(r: CertParams, certs: seq<Certificate>): (i: int)
    ensures -1 <= i < |certs|
  {
    if certs == [] then -1
    else if Candidate(r, certs[|certs| - 1]) then |certs| - 1
    else LastValid(r, certs[..|certs| - 1])
  }

  lemma {:induction false} LastValidIs(r: CertParams, certs: seq<Certificate>)
    ensures var i := LastValid(r, certs);
      && (i >= 0 ==> Candidate(r, certs[i]))
      && forall j | i < j < |certs| :: !Candidate(r, certs[j])
  {
    hide Candidate;
    if certs != [] && !Candidate(r, certs[|certs| - 1]) {
      LastValidIs(r, certs[..|certs| - 1]);
    }
  }

  /** `munge_module_params`: the parameters that were given, request keys taken out and the
      principal reduced to its name. */
  function Want(r: CertParams): Scalars {
    map["principal" := Str(SubjectToPrincipal(r.principal)), "cacn" := Str(r.cacn)]
    + (if r.reason.Some? then map["revocation_reason" := Int(r.reason.value)] else map[])
  }

  /** `munge_response`: the reply uncleaned, the principal taken from the subject. */
  function Have(x: Option<Certificate>): Scalars {
    match x
    case None => map[]
    case Some(y) =>
      map["serial_number" := Str(y.serial), "status" := Str("VALID"), "subject" := Str(y.subject),
          "cacn" := Str(y.cacn), "principal" := Str(SubjectToPrincipal(y.subject))]
  }

  function Reply(r: CertParams, certs: seq<Certificate>): Option<Certificate> {
    var i := LastValid(r, certs);
    if i < 0 then None else Some(certs[i])
  }

  /** The base part of the delta; `compute_changes` drops the scalars under `absent`. */
  function BaseChanges(st: State, r: CertParams, certs: seq<Certificate>): Scalars {
    if st == Absent then map[]
    else RestrictScalars(ScalarChanges(CERTS, st, Want(r), Have(Reply(r, certs))), CERT_BASE)
  }

  /** With a valid certificate at hand only a revocation reason is left to change; without
      one there is always something. */
  lemma DeltaEmptyIff(r: CertParams, certs: seq<Certificate>)
    ensures BaseChanges(Present, r, certs) == map[] <==> LastValid(r, certs) >= 0 && r.reason.None?
  {
    var i := LastValid(r, certs);
    LastValidIs(r, certs);
    if i >= 0 {
      WantAndHave(r, certs[i]);
    } else {
      assert "principal" in Want(r);
      assert "principal" in BaseChanges(Present, r, certs);
    }
  }

  lemma WantAndHave(r: CertParams, y: Certificate)
    requires Candidate(r, y)
    ensures RestrictScalars(ScalarChanges(CERTS, Present, Want(r), Have(Some(y))), CERT_BASE) == map[] <==> r.reason.None?
  {
    hide SubjectToPrincipal;
    var want, have := Want(r), Have(Some(y));
    assert want["principal"] == have["principal"] && want["cacn"] == have["cacn"] && "revocation_reason" !in have;
    assert r.reason.Some? <==> "revocation_reason" in want;
    assert want.Keys <= {"principal", "cacn", "revocation_reason"};
    hide Want, Have, CERTS;
    var d := RestrictScalars(ScalarChanges(CERTS, Present, want, have), CERT_BASE);
    assert "revocation_reason" in d <==> r.reason.Some?;
    assert forall k | k in d :: k == "revocation_reason";
  }
}
