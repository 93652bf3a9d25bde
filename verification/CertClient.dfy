/** The certificate client and the authority as objects, method by method. */
module CertClient {
  import opened Strings
  import opened IpaModel
  import opened Requests
  import opened Changes
  import opened Certs
  import opened CertRuns

  /** The members of a reply to `cert_find`, in order. */
  function Answer(r: CertParams, certs: seq<Certificate>): seq<Certificate> {
    if certs == [] then []
    else Answer(r, certs[..|certs| - 1]) + (if Found(r, certs[|certs| - 1]) then [certs[|certs| - 1]] else [])
  }

  /** Filtering a reply by status and taking its last member finds the last candidate. */
  lemma {:induction false} LastOfAnswer(r: CertParams, certs: seq<Certificate>)
    ensures Reply(r, certs) == LastOf(Answer(r, certs))
    ensures |Answer(r, certs)| > 0 <==> exists y | y in certs :: Found(r, y)
  {
    hide Found;
    if certs != [] {
      var n := |certs| - 1;
      LastOfAnswer(r, certs[..n]);
      var head := Answer(r, certs[..n]);
      var i := LastValid(r, certs[..n]);
      assert i >= 0 ==> certs[..n][i] == certs[i];
      if Found(r, certs[n]) {
        assert Answer(r, certs) == head + [certs[n]];
        assert (head + [certs[n]])[..|head|] == head;
        assert certs[n] in certs;
      } else {
        assert Answer(r, certs) == head;
      }
    }
  }

  /** The last valid member of a reply. */
  function LastOf(found: seq<Certificate>): Option<Certificate> {
    if found == [] then None
    else if found[|found| - 1].status == VALID then Some(found[|found| - 1])
    else LastOf(found[..|found| - 1])
  }

  class CertServer {
    const ca: Authority
    var certs: seq<Certificate>

    constructor (ca: Authority, certs: seq<Certificate>)
      ensures this.ca == ca && this.certs == certs
    {
      this.ca := ca;
      this.certs := certs;
    }

    method CertFind(r: CertParams) returns (found: seq<Certificate>)
      ensures found == Answer(r, certs)
    {
      found := [];
      for i := 0 to |certs|
        invariant found == Answer(r, certs[..i])
      {
        assert certs[..i + 1][..i] == certs[..i];
        if Found(r, certs[i]) { found := found + [certs[i]]; }
      }
      assert certs[..|certs|] == certs;
    }

    /** Carries a request out, or refuses it and changes nothing. */
    method Post(q: CertRequest, serial: string) returns (ok: bool)
      modifies this
      ensures ok <==> ServeCert(ca, serial, old(certs), q).Some?
      ensures certs == if ok then ServeCert(ca, serial, old(certs), q).value else old(certs)
    {
      if Issues(ca, q) {
        certs := certs + [Issued(ca, serial, q)];
        return true;
      }
      if !Revokes(q) { return false; }
      ghost var was := certs;
      var i := 0;
      while i < |certs|
        invariant 0 <= i <= |certs| == |was|
        invariant forall j | 0 <= j < i :: certs[j] == if was[j].serial == q.serial then Revoked(was[j]) else was[j]
        invariant forall j | i <= j < |was| :: certs[j] == was[j]
      {
        if certs[i].serial == q.serial { certs := certs[i := Revoked(certs[i])]; }
        i := i + 1;
      }
      assert certs == RevokeSerial(was, q.serial);
      return true;
    }
  }

  class CertIPAClient {
    const st: State
    const check: bool
    const r: CertParams
    var responseCleaned: Option<Certificate>
    var exists_: bool
    var diffs: Scalars
    var requests: seq<CertRequest>
    var changed: bool

    constructor (st: State, check: bool, r: CertParams)
      ensures this.st == st && this.check == check && this.r == r
      ensures requests == [] && !changed
    {
      this.st, this.check, this.r := st, check, r;
      responseCleaned, exists_, diffs, requests, changed := None, false, map[], [], false;
    }

    /** `compute_changes`, of which `cert` keeps no scalars under `absent`. */
    method Find(server: CertServer)
      modifies this
      ensures responseCleaned == Reply(r, server.certs)
      ensures exists_ <==> exists y | y in server.certs :: Found(r, y)
      ensures diffs == (if st == Absent then map[] else ScalarChanges(CERTS, st, Want(r), Have(Reply(r, server.certs))))
      ensures unchanged(this`requests, this`changed)
    {
      hide Answer, Reply, Want, Have, ScalarChanges, CERTS, Found;
      var found := server.CertFind(r);
      LastOfAnswer(r, server.certs);
      exists_ := |found| > 0;
      var i := |found|;
      assert found[..i] == found;
      while i > 0 && found[i - 1].status != VALID
        invariant 0 <= i <= |found|
        invariant LastOf(found) == LastOf(found[..i])
        invariant unchanged(this`requests, this`changed)
      {
        assert found[..i][..i - 1] == found[..i - 1];
        i := i - 1;
      }
      responseCleaned := if i == 0 then None else Some(found[i - 1]);
      diffs := if st == Absent then map[] else ScalarChanges(CERTS, st, Want(r), Have(responseCleaned));
    }

    /** `rem`: whether to stop here, and whether the run failed for want of a reason. */
    method Rem() returns (stop: bool, failed: bool)
      modifies this`requests
      ensures stop <==> st == Absent
      ensures failed <==> stop && responseCleaned.Some? && !check && r.reason.None?
      ensures requests == old(requests) +
        (if stop && responseCleaned.Some? && !check && !failed then
           [Revoke(responseCleaned.value.serial,
                   map["cacn" := Str(responseCleaned.value.cacn), "revocation_reason" := Int(r.reason.value)])]
         else [])
    {
      failed := false;
      if st != Absent { return false, false; }
      if responseCleaned.None? || check { return true, false; }
      if r.reason.None? { return true, true; }
      var x := responseCleaned.value;
      requests := requests +
        [Revoke(x.serial, map["cacn" := Str(x.cacn), "revocation_reason" := Int(r.reason.value)])];
      return true, false;
    }

    method AddOrMod()
      modifies this`requests
      ensures var item := RestrictScalars(diffs, CERT_BASE);
        requests == old(requests) + if item == map[] && exists_ then [] else [Issue(r.req, item["all" := Bool(true)])]
    {
      var item: Scalars := map[];
      var todo := diffs.Keys;
      while todo != {}
        invariant todo <= diffs.Keys
        invariant item == RestrictScalars(diffs, CERT_BASE - todo)
        decreases |todo|
      {
        var k :| k in todo;
        if k in CERT_BASE { item := item[k := diffs[k]]; }
        todo := todo - {k};
      }
      assert item == RestrictScalars(diffs, CERT_BASE);
      if item == map[] && exists_ { return; }
      requests := requests + [Issue(r.req, item["all" := Bool(true)])];
    }

    method ProcessQueue(server: CertServer, serial: string) returns (ok: bool)
      requires |requests| <= 1
      modifies this`changed, server
      ensures requests == [] ==> ok && server.certs == old(server.certs) && changed == old(changed)
      ensures requests != [] && check ==> ok && server.certs == old(server.certs) && changed
      ensures requests != [] && !check ==>
        var after := ServeCert(server.ca, serial, old(server.certs), requests[0]);
        (ok <==> after.Some?) && server.certs == (if ok then after.value else old(server.certs)) && (ok ==> changed)
    {
      ok := true;
      var i := 0;
      while i < |requests|
        invariant 0 <= i <= |requests|
        invariant i == 0 ==> server.certs == old(server.certs) && changed == old(changed)
        invariant i > 0 ==> changed
        invariant i > 0 && check ==> server.certs == old(server.certs)
        invariant i > 0 && !check ==> ServeCert(server.ca, serial, old(server.certs), requests[0]) == Some(server.certs)
      {
        if !check {
          ok := server.Post(requests[i], serial);
          if !ok { return; }
        }
        changed := true;
        i := i + 1;
      }
    }

    /** One run does to the authority what `CertRun` says, and a failed one nothing. */
    method Ensure(server: CertServer, serial: string) returns (ok: bool)
      requires requests == [] && !changed && st in {Present, Absent}
      modifies this, server
      ensures var out := CertRun(server.ca, serial, st, check, r, old(server.certs));
        && (ok <==> out.Ran?)
        && server.certs == (if ok then out.certs else old(server.certs))
        && (ok ==> requests == out.queue && changed == out.changed)
    {
      hide Want, Have, Found, LastValid, ServeCert, ScalarChanges, CERTS, CERT_BASE, RestrictScalars;
      Find(server);
      var stop, failed := Rem();
      if failed { return false; }
      if !stop { AddOrMod(); }
      ok := ProcessQueue(server, serial);
    }
  }

  /** What `state: absent` promises, over whole runs: as many runs as there are valid
      certificates revoke those and nothing else. */
  method RevokeAll(server: CertServer, r: CertParams, n: nat)
    requires DistinctSerials(server.certs) && r.reason.Some?
    modifies server
    ensures n >= CountValid(r, old(server.certs)) ==>
      |server.certs| == |old(server.certs)|
      && forall j | 0 <= j < |server.certs| ::
           server.certs[j] == if Candidate(r, old(server.certs)[j]) then Revoked(old(server.certs)[j]) else old(server.certs)[j]
    ensures server.certs == AbsentRuns(server.ca, "", r, old(server.certs), n)
  {
    hide CertRun, Candidate, CountValid;
    if n >= CountValid(r, server.certs) { AbsentRunsReachZero(server.ca, "", r, server.certs, n); }
    var i := n;
    while i > 0
      invariant DistinctSerials(server.certs)
      invariant AbsentRuns(server.ca, "", r, old(server.certs), n) == AbsentRuns(server.ca, "", r, server.certs, i)
    {
      AbsentStep(server.ca, "", r, server.certs);
      var client := new CertIPAClient(Absent, false, r);
      var ok := client.Ensure(server, "");
      i := i - 1;
    }
  }
}
