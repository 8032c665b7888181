/** The agreement routes: creating an agreement for a case, reading it, editing it while
    it is still open, signing it, and fetching the data for its PDF. Signing is where the
    mediation concludes: the signature of the last required signer marks the agreement
    SIGNED and the case RESOLVED.

    Each handler is a method over the record store whose result and new tables are those
    of a specification function on a snapshot of the tables; the properties are lemmas
    about the specification functions. */
module Agreements {
  import opened Common
  import opened Store

  // ----- who may do what -----

  /** The `findFirst` of create and get-by-case finds the case with the caller as
      plaintiff, defendant or panel member; an ADMIN passes even when it finds none. */
  predicate CanView(t: Tables, caller: Principal, caseId: CaseId) {
    || (caseId in t.cases && (IsParty(t.cases[caseId], caller.id) || IsPanelMember(t.panels, caseId, caller.id)))
    || caller.role == ADMIN
  }

  /** Update and PDF: plaintiff, defendant or ADMIN; panel members are not included. */
  predicate CanEdit(c: Case, caller: Principal) {
    IsParty(c, caller.id) || caller.role == ADMIN
  }

  /** Only the two parties sign; an ADMIN does not. */
  predicate CanSign(c: Case, caller: Principal) {
    IsParty(c, caller.id)
  }

  predicate HasAgreement(agreements: map<AgreementId, Agreement>, caseId: CaseId) {
    exists a | a in agreements :: agreements[a].caseId == caseId
  }

  predicate Locked(a: Agreement) {
    a.status == SIGNED || a.status == EXECUTED
  }

  // ----- consensus -----

  /** Some signature in `sigs` is `u`'s on agreement `id`. */
  predicate HasSigned(sigs: seq<Signature>, id: AgreementId, u: UserId) {
    exists k | 0 <= k < |sigs| :: sigs[k].agreementId == id && sigs[k].userId == u
  }

  /** The signatures of agreement `id`, in signing order, as the users who gave them. */
  function SignersOf(sigs: seq<Signature>, id: AgreementId): (r: seq<UserId>)
    ensures forall u :: u in r <==> HasSigned(sigs, id, u)
    ensures |r| <= |sigs|
  {
    if sigs == [] then []
    else
      var rest := SignersOf(sigs[..|sigs| - 1], id);
      var last := sigs[|sigs| - 1];
      assert forall k :: 0 <= k < |sigs| - 1 ==> sigs[..|sigs| - 1][k] == sigs[k];
      if last.agreementId == id then rest + [last.userId] else rest
  }

  /** The plaintiff, and then the defendant when one is bound. */
  function RequiredSigners(c: Case): (r: seq<UserId>)
    ensures 1 <= |r| <= 2 && r[0] == c.plaintiffId
    ensures |r| == 2 <==> c.defendantId.Some?
    ensures |r| == 2 ==> r[1] == c.defendantId.value
  {
    [c.plaintiffId] + (if c.defendantId.Some? then [c.defendantId.value] else [])
  }

  /** `required.every(id => signed.includes(id))` */
  predicate AllSigned(required: seq<UserId>, signed: seq<UserId>) {
    forall k | 0 <= k < |required| :: required[k] in signed
  }

  /** Consensus means: the plaintiff has signed and, when a defendant is bound, so has
      the defendant. */
  lemma ConsensusMeansBothParties(c: Case, signed: seq<UserId>)
    ensures AllSigned(RequiredSigners(c), signed) <==>
      c.plaintiffId in signed && (c.defendantId.Some? ==> c.defendantId.value in signed)
  {
    var req := RequiredSigners(c);
    if c.plaintiffId in signed && (c.defendantId.Some? ==> c.defendantId.value in signed) {
      forall k | 0 <= k < |req| ensures req[k] in signed {
      }
    }
  }

  // ----- results -----

  datatype SignResult = SignResult(signature: Signature, allSigned: bool)

  datatype AgreementView = AgreementView(id: AgreementId, agreement: Agreement, signatures: seq<Signature>)

  datatype PdfData = PdfData(content: string, signatures: seq<Signature>, createdAt: int, signedAt: Option<int>)

  function SignaturesFor(sigs: seq<Signature>, id: AgreementId): (r: seq<Signature>)
    ensures forall k :: 0 <= k < |r| ==> r[k].agreementId == id && r[k] in sigs
    ensures forall k :: 0 <= k < |sigs| && sigs[k].agreementId == id ==> sigs[k] in r
  {
    if sigs == [] then []
    else (if sigs[0].agreementId == id then [sigs[0]] else []) + SignaturesFor(sigs[1..], id)
  }

  // ----- specifications -----

  /** POST /agreements. The new agreement starts as a DRAFT; `newId` is the id the
      database generates for it. */
  function CreateSpec(t: Tables, caller: Principal, newId: AgreementId, caseId: CaseId,
                      templateId: Option<string>, content: string, now: int): (Tables, Outcome<Agreement>)
    requires newId !in t.agreements
  {
    if !CanView(t, caller, caseId) then (t, Refused(403, "Access denied"))
    else if HasAgreement(t.agreements, caseId) then (t, Refused(400, "Agreement already exists for this case"))
    else if caseId !in t.cases then (t, Failed(ForeignKeyViolation))
    else if templateId.Some? && templateId.value !in t.templates then (t, Failed(ForeignKeyViolation))
    else
      var a := Agreement(caseId, templateId, content, DRAFT, now, None);
      (t.(agreements := t.agreements[newId := a]), Done(201, a))
  }

  /** The agreement of a case, when there is one (the relation is one-to-one). */
  ghost function AgreementOf(agreements: map<AgreementId, Agreement>, caseId: CaseId): (r: Option<AgreementId>)
    ensures r.None? <==> !HasAgreement(agreements, caseId)
    ensures r.Some? ==> r.value in agreements && agreements[r.value].caseId == caseId
  {
    if HasAgreement(agreements, caseId) then
      var a :| a in agreements && agreements[a].caseId == caseId; Some(a)
    else None
  }

  /** GET /agreements/case/:caseId */
  ghost function GetByCaseSpec(t: Tables, caller: Principal, caseId: CaseId): Outcome<AgreementView> {
    if !CanView(t, caller, caseId) then Refused(403, "Access denied")
    else match AgreementOf(t.agreements, caseId)
      case None => Refused(404, "Agreement not found")
      case Some(id) => Done(200, AgreementView(id, t.agreements[id], SignaturesFor(t.signatures, id)))
  }

  /** PUT /agreements/:id. An omitted field leaves the stored value as it is; a `status`
      outside the enum makes Prisma refuse the update, which writes nothing. */
  function UpdateSpec(t: Tables, caller: Principal, id: AgreementId,
                      content: Option<string>, status: Option<string>): (Tables, Outcome<Agreement>)
    requires AgreementsWellFormed(t)
  {
    if id !in t.agreements then (t, Refused(404, "Agreement not found"))
    else
      var a := t.agreements[id];
      if !CanEdit(t.cases[a.caseId], caller) then (t, Refused(403, "Access denied"))
      else if Locked(a) then (t, Refused(400, "Cannot modify signed agreement"))
      else if status.Some? && AgreementStatusOf(status.value).None? then (t, Failed(InvalidArgument))
      else
        var a' := a.(content := if content.Some? then content.value else a.content,
                     status := if status.Some? then AgreementStatusOf(status.value).value else a.status);
        (t.(agreements := t.agreements[id := a']), Done(200, a'))
  }

  /** POST /agreements/:id/sign. The signature records `req.ip || remoteAddress ||
      'unknown'` and the User-Agent header or 'unknown'; `now` is the server clock. */
  function SignSpec(t: Tables, caller: Principal, id: AgreementId, reqIp: Option<string>,
                    remoteAddress: Option<string>, userAgent: Option<string>, now: int): (Tables, Outcome<SignResult>)
    requires AgreementsWellFormed(t)
  {
    if id !in t.agreements then (t, Refused(404, "Agreement not found"))
    else
      var a := t.agreements[id];
      var c := t.cases[a.caseId];
      if !CanSign(c, caller) then (t, Refused(403, "Not authorized to sign this agreement"))
      else if caller.id in SignersOf(t.signatures, id) then (t, Refused(400, "Already signed this agreement"))
      else
        var ip := OrDefault(reqIp, OrDefault(remoteAddress, "unknown"));
        var sig := Signature(id, caller.id, ip, OrDefault(userAgent, "unknown"));
        var sigs := t.signatures + [sig];
        var all := AllSigned(RequiredSigners(c), SignersOf(sigs, id));
        var t1 := t.(signatures := sigs);
        if all then
          (t1.(agreements := t.agreements[id := a.(status := SIGNED, signedAt := Some(now))],
               cases := t.cases[a.caseId := c.(status := RESOLVED)]),
           Done(200, SignResult(sig, true)))
        else (t1, Done(200, SignResult(sig, false)))
  }

  /** GET /agreements/:id/pdf */
  function PdfSpec(t: Tables, caller: Principal, id: AgreementId): Outcome<PdfData>
    requires AgreementsWellFormed(t)
  {
    if id !in t.agreements then Refused(404, "Agreement not found")
    else
      var a := t.agreements[id];
      if !CanEdit(t.cases[a.caseId], caller) then Refused(403, "Access denied")
      else Done(200, PdfData(a.content, SignaturesFor(t.signatures, id), a.createdAt, a.signedAt))
  }

  // ----- properties -----

  /** At most one agreement per case: creating a second is refused and the table keeps
      its single agreement; a created agreement is a DRAFT with the given content. */
  lemma CreateKeepsOnePerCase(t: Tables, caller: Principal, newId: AgreementId, caseId: CaseId,
                              templateId: Option<string>, content: string, now: int)
    requires TablesValid(t) && newId !in t.agreements
    ensures var (t', out) := CreateSpec(t, caller, newId, caseId, templateId, content, now);
      && TablesValid(t')
      && (HasAgreement(t.agreements, caseId) ==> t' == t && out.Refused?)
      && (out.Done? <==> CanView(t, caller, caseId) && !HasAgreement(t.agreements, caseId) && caseId in t.cases
                         && (templateId.Some? ==> templateId.value in t.templates))
      && ((CanView(t, caller, caseId) && !HasAgreement(t.agreements, caseId) && caseId in t.cases
           && templateId.Some? && templateId.value !in t.templates) ==> out == Failed(ForeignKeyViolation))
      && (out.Done? ==> t' == t.(agreements := t.agreements[newId := out.value])
                        && out.value.status == DRAFT && out.value.content == content && out.value.caseId == caseId
                        && out.value.templateId == templateId && out.value.signedAt.None? && out.value.createdAt == now)
      && (!out.Done? ==> t' == t)
  {
    var (t', out) := CreateSpec(t, caller, newId, caseId, templateId, content, now);
    if out.Done? {
      forall a, b | a in t'.agreements && b in t'.agreements && a != b
        ensures t'.agreements[a].caseId != t'.agreements[b].caseId
      {
        if a == newId {
          assert !HasAgreement(t.agreements, caseId);
          assert b in t.agreements;
        } else if b == newId {
          assert a in t.agreements;
        }
      }
    }
  }

  /** Create and read are open to the parties, the panel and ADMIN; everyone else is
      refused with 403 and nothing is written. */
  lemma CreateAccess(t: Tables, caller: Principal, newId: AgreementId, caseId: CaseId,
                     templateId: Option<string>, content: string, now: int)
    requires newId !in t.agreements
    ensures var (t', out) := CreateSpec(t, caller, newId, caseId, templateId, content, now);
      !CanView(t, caller, caseId) <==> (out == Refused(403, "Access denied") && t' == t)
  {
  }

  /** Reading is refused with 403 outside the parties, the panel and ADMIN, and with 404
      when the case has no agreement; a permitted caller gets the case's agreement with
      its own signatures. */
  lemma GetByCaseAccess(t: Tables, caller: Principal, caseId: CaseId)
    ensures GetByCaseSpec(t, caller, caseId).Done? ==> CanView(t, caller, caseId) && HasAgreement(t.agreements, caseId)
    ensures forall id :: AgreementsWellFormed(t) && CanView(t, caller, caseId)
                         && id in t.agreements && t.agreements[id].caseId == caseId ==>
      GetByCaseSpec(t, caller, caseId) == Done(200, AgreementView(id, t.agreements[id], SignaturesFor(t.signatures, id)))
    ensures !CanView(t, caller, caseId) ==> GetByCaseSpec(t, caller, caseId) == Refused(403, "Access denied")
    ensures CanView(t, caller, caseId) && !HasAgreement(t.agreements, caseId) ==>
      GetByCaseSpec(t, caller, caseId) == Refused(404, "Agreement not found")
  {
  }

  /** The edit lock: a SIGNED or EXECUTED agreement is never changed by an update; any
      other agreement takes the supplied content and status verbatim, and a status name
      outside the enum changes nothing. */
  lemma UpdateRespectsLock(t: Tables, caller: Principal, id: AgreementId,
                           content: Option<string>, status: Option<string>)
    requires AgreementsWellFormed(t)
    requires id in t.agreements && CanEdit(t.cases[t.agreements[id].caseId], caller)
    ensures var (t', out) := UpdateSpec(t, caller, id, content, status);
      var a := t.agreements[id];
      && (Locked(a) ==> t' == t && out == Refused(400, "Cannot modify signed agreement"))
      && (!Locked(a) && status.Some? && AgreementStatusOf(status.value).None? ==> t' == t && out == Failed(InvalidArgument))
      && (!Locked(a) && (status.None? || AgreementStatusOf(status.value).Some?) ==>
                         out.Done? && id in t'.agreements && t'.agreements[id] == out.value
                         && (content.Some? ==> out.value.content == content.value)
                         && (content.None? ==> out.value.content == a.content)
                         && (status.Some? ==> AgreementStatusName(out.value.status) == status.value)
                         && (status.None? ==> out.value.status == a.status)
                         && out.value.caseId == a.caseId && out.value.signedAt == a.signedAt
                         && out.value.createdAt == a.createdAt && out.value.templateId == a.templateId
                         && t' == t.(agreements := t.agreements[id := out.value]))
  {
  }

  /** Panel members may read an agreement but not edit it; nobody outside the parties
      and ADMIN changes anything through an update. */
  lemma UpdateAccess(t: Tables, caller: Principal, id: AgreementId,
                     content: Option<string>, status: Option<string>)
    requires AgreementsWellFormed(t)
    ensures var (t', out) := UpdateSpec(t, caller, id, content, status);
      out.Done? ==> id in t.agreements && CanEdit(t.cases[t.agreements[id].caseId], caller)
                    && !Locked(t.agreements[id])
    ensures var (t', out) := UpdateSpec(t, caller, id, content, status);
      !out.Done? ==> t' == t
  {
  }

  lemma SignersOfAppend(sigs: seq<Signature>, s: Signature, id: AgreementId)
    ensures SignersOf(sigs + [s], id) == SignersOf(sigs, id) + (if s.agreementId == id then [s.userId] else [])
  {
    assert (sigs + [s])[..|sigs + [s]| - 1] == sigs;
  }

  /** Only a party signs, and only once: signing succeeds exactly for a party of the
      agreement's case who has not signed it yet; every refusal leaves the tables as
      they were, and success appends exactly the caller's signature. */
  lemma SignOnlyPartiesOnce(t: Tables, caller: Principal, id: AgreementId, reqIp: Option<string>,
                            remoteAddress: Option<string>, userAgent: Option<string>, now: int)
    requires AgreementsWellFormed(t)
    ensures var (t', out) := SignSpec(t, caller, id, reqIp, remoteAddress, userAgent, now);
      && (out.Done? <==> id in t.agreements && CanSign(t.cases[t.agreements[id].caseId], caller)
                         && !HasSigned(t.signatures, id, caller.id))
      && (!out.Done? ==> t' == t)
      && (out.Done? ==> t'.signatures == t.signatures + [out.value.signature]
                        && out.value.signature.userId == caller.id && out.value.signature.agreementId == id)
      && t' == t.(signatures := t'.signatures, agreements := t'.agreements, cases := t'.cases)
  {
  }

  /** Signing keeps every constraint of the store, in particular that (agreement, user)
      is unique among signatures. */
  lemma SignKeepsValid(t: Tables, caller: Principal, id: AgreementId, reqIp: Option<string>,
                       remoteAddress: Option<string>, userAgent: Option<string>, now: int)
    requires TablesValid(t)
    ensures TablesValid(SignSpec(t, caller, id, reqIp, remoteAddress, userAgent, now).0)
  {
    var (t', out) := SignSpec(t, caller, id, reqIp, remoteAddress, userAgent, now);
    SignOnlyPartiesOnce(t, caller, id, reqIp, remoteAddress, userAgent, now);
    SignConcludes(t, caller, id, reqIp, remoteAddress, userAgent, now);
    if out.Done? {
      var a := t.agreements[id];
      var c := t.cases[a.caseId];
      SignaturesUniqueAppend(t.signatures, out.value.signature);
      if out.value.allSigned {
        AgreementsWellFormedAfterUpdate(t, id, a.(status := SIGNED, signedAt := Some(now)), a.caseId, c.(status := RESOLVED));
      }
    }
  }

  /** The last-required-signer rule: allSigned reports whether the plaintiff and, when
      one is bound, the defendant have now signed. */
  lemma SignConsensus(t: Tables, caller: Principal, id: AgreementId, reqIp: Option<string>,
                      remoteAddress: Option<string>, userAgent: Option<string>, now: int)
    requires AgreementsWellFormed(t)
    ensures var (t', out) := SignSpec(t, caller, id, reqIp, remoteAddress, userAgent, now);
      out.Done? ==>
        var c := t.cases[t.agreements[id].caseId];
        var signed := SignersOf(t'.signatures, id);
        out.value.allSigned <==> c.plaintiffId in signed && (c.defendantId.Some? ==> c.defendantId.value in signed)
  {
    var (t', out) := SignSpec(t, caller, id, reqIp, remoteAddress, userAgent, now);
    if out.Done? {
      ConsensusMeansBothParties(t.cases[t.agreements[id].caseId], SignersOf(t'.signatures, id));
    }
  }

  /** What consensus writes: when every required party has signed, the agreement
      becomes SIGNED at `now` and its case RESOLVED; otherwise neither record changes. */
  lemma SignConcludes(t: Tables, caller: Principal, id: AgreementId, reqIp: Option<string>,
                      remoteAddress: Option<string>, userAgent: Option<string>, now: int)
    requires AgreementsWellFormed(t)
    ensures var (t', out) := SignSpec(t, caller, id, reqIp, remoteAddress, userAgent, now);
      out.Done? ==>
        var a := t.agreements[id];
        var c := t.cases[a.caseId];
        && (out.value.allSigned ==> t'.agreements == t.agreements[id := a.(status := SIGNED, signedAt := Some(now))]
                                    && t'.cases == t.cases[a.caseId := c.(status := RESOLVED)])
        && (!out.value.allSigned ==> t'.agreements == t.agreements && t'.cases == t.cases)
  {
    if id in t.agreements {
      var a := t.agreements[id];
      var c := t.cases[a.caseId];
      if CanSign(c, caller) && caller.id !in SignersOf(t.signatures, id) {
        var sig := Signature(id, caller.id, OrDefault(reqIp, OrDefault(remoteAddress, "unknown")),
                             OrDefault(userAgent, "unknown"));
        var all := AllSigned(RequiredSigners(c), SignersOf(t.signatures + [sig], id));
        var t1 := t.(signatures := t.signatures + [sig]);
        if all {
          assert SignSpec(t, caller, id, reqIp, remoteAddress, userAgent, now)
              == (t1.(agreements := t.agreements[id := a.(status := SIGNED, signedAt := Some(now))],
                      cases := t.cases[a.caseId := c.(status := RESOLVED)]),
                  Done(200, SignResult(sig, true)));
        } else {
          assert SignSpec(t, caller, id, reqIp, remoteAddress, userAgent, now) == (t1, Done(200, SignResult(sig, false)));
        }
      }
    }
  }

  /** With no defendant bound, the plaintiff's one signature concludes the case. */
  lemma PlaintiffAloneConcludes(t: Tables, id: AgreementId, reqIp: Option<string>,
                                remoteAddress: Option<string>, userAgent: Option<string>, now: int)
    requires AgreementsWellFormed(t)
    requires id in t.agreements && t.cases[t.agreements[id].caseId].defendantId.None?
    requires t.cases[t.agreements[id].caseId].plaintiffId !in SignersOf(t.signatures, id)
    ensures var c := t.cases[t.agreements[id].caseId];
      var (t', out) := SignSpec(t, Principal(c.plaintiffId, USER), id, reqIp, remoteAddress, userAgent, now);
      out.Done? && out.value.allSigned && t'.cases[t.agreements[id].caseId].status == RESOLVED
      && t'.agreements[id].status == SIGNED
  {
    var c := t.cases[t.agreements[id].caseId];
    var p := Principal(c.plaintiffId, USER);
    var (t', out) := SignSpec(t, p, id, reqIp, remoteAddress, userAgent, now);
    var sig := Signature(id, c.plaintiffId, OrDefault(reqIp, OrDefault(remoteAddress, "unknown")),
                         OrDefault(userAgent, "unknown"));
    SignersOfAppend(t.signatures, sig, id);
    assert c.plaintiffId in SignersOf(t.signatures + [sig], id);
  }

  /** The parties of an agreement's case when the defendant is bound and is not the
      plaintiff, `first` and `second` being the two of them in either order. */
  predicate TwoParties(t: Tables, id: AgreementId, first: UserId, second: UserId)
    requires AgreementsWellFormed(t) && id in t.agreements
  {
    var c := t.cases[t.agreements[id].caseId];
    && c.defendantId.Some? && c.defendantId.value != c.plaintiffId
    && ((first == c.plaintiffId && second == c.defendantId.value) ||
        (first == c.defendantId.value && second == c.plaintiffId))
  }

  /** The first of the two signing orders' steps. On an agreement nobody has signed,
      whichever party signs first gets allSigned = false, leaves agreement and case
      alone, and is then its only signer. */
  lemma FirstSignatureWaits(t: Tables, id: AgreementId, first: UserId, second: UserId,
                            ip: Option<string>, ua: Option<string>, now: int)
    requires AgreementsWellFormed(t) && id in t.agreements && TwoParties(t, id, first, second)
    requires SignersOf(t.signatures, id) == []
    ensures var (t1, out1) := SignSpec(t, Principal(first, USER), id, ip, None, ua, now);
      && out1.Done? && !out1.value.allSigned
      && t1.agreements == t.agreements && t1.cases == t.cases
      && SignersOf(t1.signatures, id) == [first]
  {
    var c := t.cases[t.agreements[id].caseId];
    var sig1 := Signature(id, first, OrDefault(ip, "unknown"), OrDefault(ua, "unknown"));
    SignersOfAppend(t.signatures, sig1, id);
    assert SignersOf(t.signatures + [sig1], id) == [first];
    ConsensusMeansBothParties(c, [first]);
  }

  /** The second step: once one party has signed, the other party's signature reports
      true, marks the agreement SIGNED at that time and the case RESOLVED. Together
      with the first step, this holds in either signing order, since the first step's
      outcome meets this one's requirements with the parties swapped. */
  lemma SecondSignatureConcludes(t: Tables, id: AgreementId, first: UserId, second: UserId,
                                 ip: Option<string>, ua: Option<string>, now: int)
    requires AgreementsWellFormed(t) && id in t.agreements && TwoParties(t, id, first, second)
    requires SignersOf(t.signatures, id) == [first]
    ensures var (t2, out2) := SignSpec(t, Principal(second, USER), id, ip, None, ua, now);
      && out2.Done? && out2.value.allSigned
      && id in t2.agreements && t2.agreements[id].status == SIGNED && t2.agreements[id].signedAt == Some(now)
      && t.agreements[id].caseId in t2.cases && t2.cases[t.agreements[id].caseId].status == RESOLVED
  {
    var c := t.cases[t.agreements[id].caseId];
    var sig2 := Signature(id, second, OrDefault(ip, "unknown"), OrDefault(ua, "unknown"));
    SignersOfAppend(t.signatures, sig2, id);
    assert SignersOf(t.signatures + [sig2], id) == [first, second];
    ConsensusMeansBothParties(c, [first, second]);
  }

  /** Reading for the PDF is open to the parties and ADMIN only. */
  lemma PdfAccess(t: Tables, caller: Principal, id: AgreementId)
    requires AgreementsWellFormed(t)
    ensures PdfSpec(t, caller, id).Done? <==> id in t.agreements && CanEdit(t.cases[t.agreements[id].caseId], caller)
  {
  }

  // ----- the handlers -----

  method Create(db: Database, caller: Principal, newId: AgreementId, caseId: CaseId,
                templateId: Option<string>, content: string, now: int) returns (out: Outcome<Agreement>)
    requires db.Valid() && newId !in db.agreements
    modifies db`agreements
    ensures db.Valid()
    ensures (db.Snapshot(), out) == CreateSpec(old(db.Snapshot()), caller, newId, caseId, templateId, content, now)
  {
    CreateKeepsOnePerCase(db.Snapshot(), caller, newId, caseId, templateId, content, now);
    var allowed := caseId in db.cases && (IsParty(db.cases[caseId], caller.id) || IsPanelMember(db.panels, caseId, caller.id));
    if !allowed && caller.role != ADMIN {
      return Refused(403, "Access denied");
    }
    var existing := HasAgreement(db.agreements, caseId);
    if existing {
      return Refused(400, "Agreement already exists for this case");
    }
    if caseId !in db.cases {
      return Failed(ForeignKeyViolation);
    }
    if templateId.Some? && templateId.value !in db.templates {
      return Failed(ForeignKeyViolation);
    }
    var a := Agreement(caseId, templateId, content, DRAFT, now, None);
    db.agreements := db.agreements[newId := a];
    return Done(201, a);
  }

  /** Reads only; the agreement is found through its case. */
  method GetByCase(db: Database, caller: Principal, caseId: CaseId) returns (out: Outcome<AgreementView>)
    requires db.Valid()
    ensures out == GetByCaseSpec(db.Snapshot(), caller, caseId)
  {
    var allowed := caseId in db.cases && (IsParty(db.cases[caseId], caller.id) || IsPanelMember(db.panels, caseId, caller.id));
    if !allowed && caller.role != ADMIN {
      return Refused(403, "Access denied");
    }
    if !HasAgreement(db.agreements, caseId) {
      return Refused(404, "Agreement not found");
    }
    var id :| id in db.agreements && db.agreements[id].caseId == caseId;
    ghost var chosen := AgreementOf(db.agreements, caseId);
    assert chosen == Some(id);
    return Done(200, AgreementView(id, db.agreements[id], SignaturesFor(db.signatures, id)));
  }

  method Update(db: Database, caller: Principal, id: AgreementId,
                content: Option<string>, status: Option<string>) returns (out: Outcome<Agreement>)
    requires db.Valid()
    modifies db`agreements
    ensures db.Valid()
    ensures (db.Snapshot(), out) == UpdateSpec(old(db.Snapshot()), caller, id, content, status)
  {
    if id !in db.agreements {
      return Refused(404, "Agreement not found");
    }
    var existing := db.agreements[id];
    var c := db.cases[existing.caseId];
    var hasAccess := c.plaintiffId == caller.id || c.defendantId == Some(caller.id) || caller.role == ADMIN;
    if !hasAccess {
      return Refused(403, "Access denied");
    }
    if existing.status == SIGNED || existing.status == EXECUTED {
      return Refused(400, "Cannot modify signed agreement");
    }
    var updated := existing;
    if content.Some? {
      updated := updated.(content := content.value);
    }
    if status.Some? {
      var st := AgreementStatusOf(status.value);
      if st.None? {
        return Failed(InvalidArgument);
      }
      updated := updated.(status := st.value);
    }
    db.agreements := db.agreements[id := updated];
    assert AgreementsWellFormed(db.Snapshot()) by {
      forall a, b | a in db.agreements && b in db.agreements && a != b
        ensures db.agreements[a].caseId != db.agreements[b].caseId
      {
        assert a in old(db.agreements) && b in old(db.agreements);
      }
    }
    return Done(200, updated);
  }

  /** Inserts the signature, re-reads the agreement, builds the required list with
      `push`, and performs the two conclusion writes when every required signer has
      signed. */
  method Sign(db: Database, caller: Principal, id: AgreementId, reqIp: Option<string>,
              remoteAddress: Option<string>, userAgent: Option<string>, now: int) returns (out: Outcome<SignResult>)
    requires db.Valid()
    modifies db`signatures, db`agreements, db`cases
    ensures db.Valid()
    ensures (db.Snapshot(), out) == SignSpec(old(db.Snapshot()), caller, id, reqIp, remoteAddress, userAgent, now)
  {
    SignKeepsValid(db.Snapshot(), caller, id, reqIp, remoteAddress, userAgent, now);
    var ipAddress := OrDefault(reqIp, OrDefault(remoteAddress, "unknown"));
    var agent := OrDefault(userAgent, "unknown");
    if id !in db.agreements {
      return Refused(404, "Agreement not found");
    }
    var agreement := db.agreements[id];
    var c := db.cases[agreement.caseId];
    var canSign := c.plaintiffId == caller.id || c.defendantId == Some(caller.id);
    if !canSign {
      return Refused(403, "Not authorized to sign this agreement");
    }
    if caller.id in SignersOf(db.signatures, id) {
      return Refused(400, "Already signed this agreement");
    }
    var signature := Signature(id, caller.id, ipAddress, agent);
    db.signatures := db.signatures + [signature];

    var updatedCase := db.cases[db.agreements[id].caseId];
    var required := [updatedCase.plaintiffId];
    if updatedCase.defendantId.Some? {
      required := required + [updatedCase.defendantId.value];
    }
    var allSigned := AllSigned(required, SignersOf(db.signatures, id));
    if allSigned {
      db.agreements := db.agreements[id := agreement.(status := SIGNED, signedAt := Some(now))];
      db.cases := db.cases[agreement.caseId := db.cases[agreement.caseId].(status := RESOLVED)];
    }
    return Done(200, SignResult(signature, allSigned));
  }

  method Pdf(db: Database, caller: Principal, id: AgreementId) returns (out: Outcome<PdfData>)
    requires db.Valid()
    ensures out == PdfSpec(db.Snapshot(), caller, id)
  {
    if id !in db.agreements {
      return Refused(404, "Agreement not found");
    }
    var a := db.agreements[id];
    var c := db.cases[a.caseId];
    var hasAccess := c.plaintiffId == caller.id || c.defendantId == Some(caller.id) || caller.role == ADMIN;
    if !hasAccess {
      return Refused(403, "Access denied");
    }
    return Done(200, PdfData(a.content, SignaturesFor(db.signatures, id), a.createdAt, a.signedAt));
  }
}
