/** Runs of the certificate client against a certificate authority: what one run does, and
    what any number of runs comes to. */
module CertRuns {
  import opened Strings
  import opened IpaModel
  import opened Requests
  import opened Certs

  /** What is posted: `cert_request` or `cert_revoke`. */
  datatype CertRequest = Issue(csr: Option<string>, item: Scalars) | Revoke(serial: string, item: Scalars)

  /** The authority: the organisation of the subjects it issues, and whether it puts up with
      a revocation reason on a request for a new certificate. */
  datatype Authority = Authority(org: string, tolerant: bool)

  function Revoked(x: Certificate): Certificate { x.(status := REVOKED) }

  predicate Issues(ca: Authority, q: CertRequest) {
    && q.Issue? && q.csr.Some?
    && "principal" in q.item && q.item["principal"].Str? && "cacn" in q.item && q.item["cacn"].Str?
    && ("revocation_reason" in q.item ==> ca.tolerant)
  }

  predicate Revokes(q: CertRequest) { q.Revoke? && "revocation_reason" in q.item }

  function Issued(ca: Authority, serial: string, q: CertRequest): Certificate
    requires Issues(ca, q)
  {
    Certificate(serial, VALID, "CN=" + q.item["principal"].s + ",O=" + ca.org, q.item["cacn"].s)
  }

  /** Every certificate with the given serial number is marked revoked. */
  function RevokeSerial(certs: seq<Certificate>, serial: string): (r: seq<Certificate>)
    ensures |r| == |certs|
    ensures forall i | 0 <= i < |certs| :: r[i] == if certs[i].serial == serial then Revoked(certs[i]) else certs[i]
  {
    if certs == [] then []
    else
      var x := certs[|certs| - 1];
      RevokeSerial(certs[..|certs| - 1], serial) + [if x.serial == serial then Revoked(x) else x]
  }

  /** The authority's step; `serial` is the number it would give to a new certificate. */
  function ServeCert(ca: Authority, serial: string, certs: seq<Certificate>, q: CertRequest): Option<seq<Certificate>> {
    if Issues(ca, q) then Some(certs + [Issued(ca, serial, q)])
    else if Revokes(q) then Some(RevokeSerial(certs, q.serial))
    else None
  }

  /** The queue after `find`; `None` when `rem_request_item` fails for want of a reason. */
  function CertQueue(st: State, check: bool, r: CertParams, certs: seq<Certificate>): Option<seq<CertRequest>> {
    var x := Reply(r, certs);
    if st == Absent then
      if x.None? || check then Some([])
      else if r.reason.None? then None
      else Some([Revoke(x.value.serial, map["cacn" := Str(x.value.cacn), "revocation_reason" := Int(r.reason.value)])])
    else
      var item := BaseChanges(st, r, certs);
      if item == map[] && (exists y | y in certs :: Found(r, y)) then Some([])
      else Some([Issue(r.req, item["all" := Bool(true)])])
  }

  datatype CertOutcome = Ran(certs: seq<Certificate>, queue: seq<CertRequest>, changed: bool) | Stopped

  /** One run; `Stopped` is a failure, which leaves the certificates as they were. */
  function CertRun(ca: Authority, serial: string, st: State, check: bool, r: CertParams, certs: seq<Certificate>): CertOutcome {
    match CertQueue(st, check, r, certs)
    case None => Stopped
    case Some(q) =>
      if check || q == [] then Ran(certs, q, q != [])
      else
        match ServeCert(ca, serial, certs, q[0])
        case None => Stopped
        case Some(after) => Ran(after, q, true)
  }

  ghost predicate DistinctSerials(certs: seq<Certificate>) {
    forall i, j | 0 <= i < j < |certs| :: certs[i].serial != certs[j].serial
  }

  predicate Fresh(serial: string, certs: seq<Certificate>) {
    forall x | x in certs :: x.serial != serial
  }

  function CountValid(r: CertParams, certs: seq<Certificate>): (n: nat)
    ensures n <= |certs|
  {
    if certs == [] then 0
    else CountValid(r, certs[..|certs| - 1]) + (if Candidate(r, certs[|certs| - 1]) then 1 else 0)
  }

  lemma {:induction false} CountZeroIff(r: CertParams, certs: seq<Certificate>)
    ensures CountValid(r, certs) == 0 <==> LastValid(r, certs) == -1
  {
    hide Candidate;
    if certs != [] { CountZeroIff(r, certs[..|certs| - 1]); }
  }

  /** Replacing one candidate by a certificate that is none lowers the count by one. */
  lemma {:induction false} CountDrops(r: CertParams, certs: seq<Certificate>, i: nat, x: Certificate)
    requires i < |certs| && Candidate(r, certs[i]) && !Candidate(r, x)
    ensures CountValid(r, certs[i := x]) == CountValid(r, certs) - 1
  {
    hide Candidate;
    var n := |certs| - 1;
    if i == n {
      assert certs[i := x][..n] == certs[..n];
    } else {
      assert certs[i := x][..n] == certs[..n][i := x];
      CountDrops(r, certs[..n], i, x);
    }
  }

  lemma RevokeOne(certs: seq<Certificate>, i: nat)
    requires DistinctSerials(certs) && i < |certs|
    ensures RevokeSerial(certs, certs[i].serial) == certs[i := Revoked(certs[i])]
    ensures DistinctSerials(certs[i := Revoked(certs[i])])
  {
    var after := RevokeSerial(certs, certs[i].serial);
    assert forall j | 0 <= j < |certs| && j != i :: certs[j].serial != certs[i].serial;
    assert forall j | 0 <= j < |certs| :: after[j] == certs[i := Revoked(certs[i])][j];
  }

  // ---------- absent ----------

  /** An `absent` run revokes exactly the last valid certificate it finds and leaves every
      other one alone. It reports a change just when there was one, and it fails just when
      there is one to revoke and no reason was given. */
  lemma AbsentRevokesLast(ca: Authority, serial: string, r: CertParams, certs: seq<Certificate>)
    requires DistinctSerials(certs)
    ensures var i := LastValid(r, certs);
      var out := CertRun(ca, serial, Absent, false, r, certs);
      && (out.Stopped? <==> i >= 0 && r.reason.None?)
      && (out.Ran? ==>
            && out.certs == (if i < 0 then certs else certs[i := Revoked(certs[i])])
            && (out.changed <==> i >= 0) && (out.changed <==> out.certs != certs)
            && DistinctSerials(out.certs)
            && CountValid(r, out.certs) == (if i < 0 then 0 else CountValid(r, certs) - 1))
  {
    var i := LastValid(r, certs);
    LastValidIs(r, certs);
    CountZeroIff(r, certs);
    hide Found, LastValid, CountValid, DistinctSerials, RevokeSerial;
    if i >= 0 {
      RevokeOne(certs, i);
      CountDrops(r, certs, i, Revoked(certs[i]));
    }
  }

  /** `n` runs in a row with state `absent`; a failing run changes nothing. */
  function AbsentRuns(ca: Authority, serial: string, r: CertParams, certs: seq<Certificate>, n: nat): seq<Certificate>
    decreases n
  {
    if n == 0 then certs
    else
      var out := CertRun(ca, serial, Absent, false, r, certs);
      AbsentRuns(ca, serial, r, if out.Ran? then out.certs else certs, n - 1)
  }

  /** The certificates of `certs` with every candidate revoked. */
  ghost predicate OnlyCandidatesRevoked(r: CertParams, certs: seq<Certificate>, after: seq<Certificate>) {
    && |after| == |certs|
    && forall j | 0 <= j < |certs| :: after[j] == certs[j] || (Candidate(r, certs[j]) && after[j] == Revoked(certs[j]))
  }

  /** One run's share of what several come to. */
  lemma AbsentStep(ca: Authority, serial: string, r: CertParams, certs: seq<Certificate>)
    requires DistinctSerials(certs) && r.reason.Some?
    ensures var out := CertRun(ca, serial, Absent, false, r, certs);
      && out.Ran? && DistinctSerials(out.certs) && OnlyCandidatesRevoked(r, certs, out.certs)
      && CountValid(r, out.certs) == (if CountValid(r, certs) == 0 then 0 else CountValid(r, certs) - 1)
      && forall j | 0 <= j < |certs| && Candidate(r, out.certs[j]) :: out.certs[j] == certs[j]
  {
    hide CertRun, LastValid, CountValid, DistinctSerials, Found;
    AbsentRevokesLast(ca, serial, r, certs);
    LastValidIs(r, certs);
    CountZeroIff(r, certs);
  }

  /** With a reason at hand, each of `n` runs takes one valid certificate away until none is
      left; certificates that were not valid, or not the wanted ones, are never altered. */
  lemma {:induction false} AbsentRunsCountDown(ca: Authority, serial: string, r: CertParams, certs: seq<Certificate>, n: nat)
    requires DistinctSerials(certs) && r.reason.Some?
    ensures var after := AbsentRuns(ca, serial, r, certs, n);
      && OnlyCandidatesRevoked(r, certs, after)
      && CountValid(r, after) == if n <= CountValid(r, certs) then CountValid(r, certs) - n else 0
    decreases n
  {
    hide CertRun, LastValid, CountValid, DistinctSerials, Candidate, Revoked, OnlyCandidatesRevoked;
    if n == 0 {
      NoneRevoked(r, certs);
    } else {
      AbsentStep(ca, serial, r, certs);
      var out := CertRun(ca, serial, Absent, false, r, certs);
      AbsentRunsCountDown(ca, serial, r, out.certs, n - 1);
      RevokedInSteps(r, certs, out.certs, AbsentRuns(ca, serial, r, out.certs, n - 1));
    }
  }

  lemma NoneRevoked(r: CertParams, certs: seq<Certificate>)
    ensures OnlyCandidatesRevoked(r, certs, certs)
  {
  }

  lemma RevokedInSteps(r: CertParams, certs: seq<Certificate>, mid: seq<Certificate>, after: seq<Certificate>)
    requires OnlyCandidatesRevoked(r, certs, mid) && OnlyCandidatesRevoked(r, mid, after)
    requires forall j | 0 <= j < |certs| && Candidate(r, mid[j]) :: mid[j] == certs[j]
    ensures OnlyCandidatesRevoked(r, certs, after)
  {
    hide Candidate, Revoked;
    forall j | 0 <= j < |certs|
      ensures after[j] == certs[j] || (Candidate(r, certs[j]) && after[j] == Revoked(certs[j]))
    {
      assert after[j] == mid[j] || (Candidate(r, mid[j]) && after[j] == Revoked(mid[j]));
    }
  }

  /** As many runs as there are valid certificates leave none, and further runs are silent. */
  lemma AbsentRunsReachZero(ca: Authority, serial: string, r: CertParams, certs: seq<Certificate>, n: nat)
    requires DistinctSerials(certs) && r.reason.Some? && n >= CountValid(r, certs)
    ensures var after := AbsentRuns(ca, serial, r, certs, n);
      && |after| == |certs|
      && (forall j | 0 <= j < |certs| :: after[j] == if Candidate(r, certs[j]) then Revoked(certs[j]) else certs[j])
      && CertRun(ca, serial, Absent, false, r, after) == Ran(after, [], false)
  {
    AbsentRunsCountDown(ca, serial, r, certs, n);
    var after := AbsentRuns(ca, serial, r, certs, n);
    CountZeroIff(r, after);
    LastValidIs(r, after);
    forall j | 0 <= j < |certs| ensures after[j] == if Candidate(r, certs[j]) then Revoked(certs[j]) else certs[j] {
      assert !Candidate(r, after[j]);
    }
  }

  // ---------- present ----------

  function Name(r: CertParams): string { SubjectToPrincipal(r.principal) }

  /** A name is read back from the subject of a certificate issued for it exactly if it has no
      comma. */
  lemma NameReadBackIff(ca: Authority, name: string)
    ensures SubjectToPrincipal("CN=" + name + ",O=" + ca.org) == name <==> ',' !in name
  {
    if ',' !in name {
      PrincipalOfSubject(name, ca.org);
    } else {
      var s := "CN=" + name + ",O=" + ca.org;
      var rest := s[3..];
      var i := IndexOf(rest, ',');
      assert SubjectToPrincipal(s) == s || SubjectToPrincipal(s) == rest[..i];
      assert ',' !in rest[..i];
      assert |s| > |name|;
    }
  }

  /** What a request for a new certificate holds when none is valid. */
  lemma FirstDelta(r: CertParams, certs: seq<Certificate>)
    requires LastValid(r, certs) == -1
    ensures BaseChanges(Present, r, certs) == Want(r)
  {
    hide Want, CERTS, CERT_BASE, LastValid;
    WantsBaseKeys(r);
    assert Reply(r, certs) == None;
    assert BaseChanges(Present, r, certs).Keys == Want(r).Keys;
  }

  lemma WantsBaseKeys(r: CertParams)
    ensures Want(r).Keys <= CERT_BASE
  {
  }

  /** A certificate at the end of the list decides, if it is a candidate. */
  lemma LastOfAppended(r: CertParams, certs: seq<Certificate>, x: Certificate)
    ensures LastValid(r, certs + [x]) == if Candidate(r, x) then |certs| else LastValid(r, certs)
    ensures CountValid(r, certs + [x]) == CountValid(r, certs) + (if Candidate(r, x) then 1 else 0)
  {
    assert (certs + [x])[..|certs|] == certs;
  }

  /** The certificate a request for `r` is answered with. */
  function NewCertificate(ca: Authority, serial: string, r: CertParams): Certificate {
    Certificate(serial, VALID, "CN=" + Name(r) + ",O=" + ca.org, r.cacn)
  }

  /** The same parameters find a certificate with this number, issued for them. */
  predicate FoundAgain(r: CertParams, serial: string) {
    ',' !in Name(r) && (r.serial.None? || r.serial.value == "" || r.serial.value == serial)
  }

  /** A certificate issued for `r` is one that the next `find` for `r` returns exactly if the
      name has no comma and no other serial number is asked for. */
  lemma IssuedIsFoundIff(ca: Authority, serial: string, r: CertParams)
    ensures Candidate(r, NewCertificate(ca, serial, r)) <==> FoundAgain(r, serial)
  {
    NameReadBackIff(ca, Name(r));
    hide SubjectToPrincipal;
  }

  /** A `present` run without revocation reason: silent if a valid certificate is there;
      otherwise it issues exactly one, or fails without a signing request. The run after that
      is silent exactly if the certificate is found again, and otherwise it issues one more. */
  lemma PresentIssuesOne(ca: Authority, serial: string, next: string, r: CertParams, certs: seq<Certificate>)
    requires r.reason.None?
    ensures var out := CertRun(ca, serial, Present, false, r, certs);
      if LastValid(r, certs) >= 0 then out == Ran(certs, [], false)
      else if r.req.None? then out == Stopped
      else
        && out.Ran? && out.certs == certs + [NewCertificate(ca, serial, r)] && out.changed
        && CountValid(r, out.certs) == (if FoundAgain(r, serial) then 1 else 0)
        && var again := CertRun(ca, next, Present, false, r, out.certs);
        && (again == Ran(out.certs, [], false) <==> FoundAgain(r, serial))
        && (!FoundAgain(r, serial) ==>
              again.Ran? && again.changed && again.certs == out.certs + [NewCertificate(ca, next, r)])
  {
    hide CertRun, LastValid, CountValid, Candidate, BaseChanges, Want, SubjectToPrincipal, NewCertificate, FoundAgain;
    if LastValid(r, certs) >= 0 {
      SilentWhenValid(ca, serial, r, certs);
    } else {
      IssuesWhenNone(ca, serial, r, certs);
      CountZeroIff(r, certs);
      if r.req.Some? {
        var x := NewCertificate(ca, serial, r);
        IssuedIsFoundIff(ca, serial, r);
        LastOfAppended(r, certs, x);
        if FoundAgain(r, serial) {
          SilentWhenValid(ca, next, r, certs + [x]);
        } else {
          IssuesWhenNone(ca, next, r, certs + [x]);
        }
      }
    }
  }

  /** Without a valid certificate a run issues one, whatever was issued before. */
  lemma IssuesWhenNone(ca: Authority, serial: string, r: CertParams, certs: seq<Certificate>)
    requires r.reason.None? && LastValid(r, certs) < 0
    ensures CertRun(ca, serial, Present, false, r, certs) ==
      if r.req.None? then Stopped
      else Ran(certs + [NewCertificate(ca, serial, r)], [Issue(r.req, Want(r)["all" := Bool(true)])], true)
  {
    FirstDelta(r, certs);
    FirstRequest(ca, serial, r, certs);
    hide CertRun, LastValid, BaseChanges, Want;
  }

  /** For whom a certificate is issued: for the principal as it was given, or for the common name
      if a whole subject was given. */
  lemma IssuedFor(ca: Authority, serial: string, r: CertParams, certs: seq<Certificate>)
    requires r.reason.None? && r.req.Some? && LastValid(r, certs) < 0
    ensures var out := CertRun(ca, serial, Present, false, r, certs);
      && out.Ran? && |out.certs| == |certs| + 1 && out.certs[..|certs|] == certs
      && var x := out.certs[|certs|];
      && x.serial == serial && x.status == VALID && x.cacn == r.cacn
      && (NamesNobody(r.principal) ==> x.subject == "CN=" + r.principal + ",O=" + ca.org)
      && forall name, org | Names(r.principal, name, org) :: x.subject == "CN=" + name + ",O=" + ca.org
  {
    hide CertRun, LastValid, Want, SubjectToPrincipal, NamesNobody, Names;
    IssuesWhenNone(ca, serial, r, certs);
    PrincipalIs(r.principal);
  }

  /** `present` runs one after the other, with the numbers the authority would give. */
  function PresentRuns(ca: Authority, serials: seq<string>, r: CertParams, certs: seq<Certificate>): seq<Certificate> {
    if serials == [] then certs
    else
      var out := CertRun(ca, serials[0], Present, false, r, certs);
      PresentRuns(ca, serials[1..], r, if out.Ran? then out.certs else certs)
  }

  /** While what they issue is not found again, every run issues one more. */
  lemma {:induction false} NeverFoundNeverSilent(ca: Authority, serials: seq<string>, r: CertParams, certs: seq<Certificate>)
    requires r.reason.None? && r.req.Some? && LastValid(r, certs) < 0
    requires forall s | s in serials :: !FoundAgain(r, s)
    ensures |PresentRuns(ca, serials, r, certs)| == |certs| + |serials|
    ensures certs <= PresentRuns(ca, serials, r, certs)
  {
    hide CertRun, LastValid, Candidate, FoundAgain, NewCertificate, Want;
    if serials != [] {
      var x := NewCertificate(ca, serials[0], r);
      assert serials[0] in serials;
      IssuesWhenNone(ca, serials[0], r, certs);
      IssuedIsFoundIff(ca, serials[0], r);
      LastOfAppended(r, certs, x);
      forall s | s in serials[1..] ensures !FoundAgain(r, s) { assert s in serials; }
      NeverFoundNeverSilent(ca, serials[1..], r, certs + [x]);
    }
  }

  lemma SilentWhenValid(ca: Authority, serial: string, r: CertParams, certs: seq<Certificate>)
    requires r.reason.None? && LastValid(r, certs) >= 0
    ensures CertRun(ca, serial, Present, false, r, certs) == Ran(certs, [], false)
  {
    DeltaEmptyIff(r, certs);
    LastValidIs(r, certs);
    assert certs[LastValid(r, certs)] in certs;
    hide BaseChanges, LastValid;
  }

  lemma FirstRequest(ca: Authority, serial: string, r: CertParams, certs: seq<Certificate>)
    requires BaseChanges(Present, r, certs) == Want(r) && LastValid(r, certs) < 0
    ensures CertRun(ca, serial, Present, false, r, certs) ==
      if r.req.None? || (r.reason.Some? && !ca.tolerant) then Stopped
      else
        var x := Certificate(serial, VALID, "CN=" + Name(r) + ",O=" + ca.org, r.cacn);
        Ran(certs + [x], [Issue(r.req, Want(r)["all" := Bool(true)])], true)
  {
    hide SubjectToPrincipal, BaseChanges, LastValid, Want, Found;
    WantedItem(r);
  }

  lemma WantedItem(r: CertParams)
    ensures var item := Want(r)["all" := Bool(true)];
      && "principal" in Want(r) && item["principal"] == Str(Name(r))
      && "cacn" in item && item["cacn"] == Str(r.cacn)
      && ("revocation_reason" in item <==> r.reason.Some?)
  {
    hide SubjectToPrincipal;
  }

  /** With a revocation reason a `present` run is never silent: while a valid certificate is
      there it asks for another with nothing but the reason, which no authority serves. */
  lemma PresentWithReason(ca: Authority, serial: string, check: bool, r: CertParams, certs: seq<Certificate>)
    requires r.reason.Some?
    ensures var q := CertQueue(Present, check, r, certs); q.Some? && |q.value| == 1 && q.value[0].Issue?
    ensures CertRun(ca, serial, Present, true, r, certs).changed
    ensures LastValid(r, certs) >= 0 ==> CertRun(ca, serial, Present, false, r, certs) == Stopped
  {
    DeltaEmptyIff(r, certs);
    if LastValid(r, certs) >= 0 {
      LastValidIs(r, certs);
      OnlyReason(r, certs[LastValid(r, certs)]);
    }
    hide BaseChanges, LastValid, Want;
  }

  lemma OnlyReason(r: CertParams, y: Certificate)
    requires Candidate(r, y)
    ensures "principal" !in BaseOf(r, y)
  {
    assert Want(r)["principal"] == Have(Some(y))["principal"];
    hide Want, Have, SubjectToPrincipal;
  }

  function BaseOf(r: CertParams, y: Certificate): Scalars {
    RestrictScalars(Changes.ScalarChanges(CERTS, Present, Want(r), Have(Some(y))), CERT_BASE)
  }

  // ---------- present and absent together ----------

  /** Issuing and then revoking: the old certificates are as they were, and the new one is
      revoked exactly if it is found again. */
  lemma AbsentUndoesPresent(ca: Authority, serial: string, next: string, r: CertParams, reason: int, certs: seq<Certificate>)
    requires DistinctSerials(certs) && Fresh(serial, certs)
    requires r.reason.None? && r.req.Some? && LastValid(r, certs) < 0
    ensures var mid := CertRun(ca, serial, Present, false, r, certs);
      && mid.Ran?
      && var out := CertRun(ca, next, Absent, false, r.(reason := Some(reason)), mid.certs);
         var x := NewCertificate(ca, serial, r);
         out.Ran? && out.certs == certs + [if FoundAgain(r, serial) then Revoked(x) else x]
  {
    hide CertRun, LastValid, CountValid, Candidate, FoundAgain, NewCertificate, Want, DistinctSerials;
    IssuesWhenNone(ca, serial, r, certs);
    var x := NewCertificate(ca, serial, r);
    var mid := certs + [x];
    var s := r.(reason := Some(reason));
    NewIsDistinct(ca, serial, r, certs);
    IssuedIsFoundIff(ca, serial, r);
    SameSearch(r, s, certs);
    SameSearch(r, s, mid);
    LastOfAppended(r, certs, x);
    AbsentRevokesLast(ca, next, s, mid);
    assert mid[|certs| := Revoked(x)] == certs + [Revoked(x)];
  }

  lemma NewIsDistinct(ca: Authority, serial: string, r: CertParams, certs: seq<Certificate>)
    requires DistinctSerials(certs) && Fresh(serial, certs)
    ensures DistinctSerials(certs + [NewCertificate(ca, serial, r)])
  {
    var all := certs + [NewCertificate(ca, serial, r)];
    forall i, j | 0 <= i < j < |all| ensures all[i].serial != all[j].serial {
      if j == |certs| { assert all[i] in certs; }
    }
  }

  /** A revocation reason makes no difference to what is found. */
  lemma {:induction false} SameSearch(r: CertParams, s: CertParams, certs: seq<Certificate>)
    requires s == r.(reason := s.reason)
    ensures LastValid(r, certs) == LastValid(s, certs)
  {
    if certs != [] { SameSearch(r, s, certs[..|certs| - 1]); }
  }

  // ---------- check mode ----------

  /** In check mode no certificate changes and no run fails; an `absent` run then reports
      nothing, even where a real run would revoke or fail. */
  lemma CheckModeOnlyLooks(ca: Authority, serial: string, st: State, r: CertParams, certs: seq<Certificate>)
    requires st in {Present, Absent}
    ensures var out := CertRun(ca, serial, st, true, r, certs);
      && out.Ran? && out.certs == certs
      && (out.changed <==> st == Present && (LastValid(r, certs) < 0 || r.reason.Some?))
  {
    DeltaEmptyIff(r, certs);
    LastValidIs(r, certs);
    if LastValid(r, certs) >= 0 { assert certs[LastValid(r, certs)] in certs; }
    hide BaseChanges, LastValid;
  }
}
