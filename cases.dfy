/** The case routes: registering a case, listing the caller's cases, reading one case,
    and the generic status update for admins and panel members.

    The status update writes whatever status it is given; no transition graph is
    consulted. Every accepted update leaves a trail: one CaseUpdate row and one
    notification to each party. */
module Cases {
  import opened Common
  import opened Store
  import opened Upload

  // ----- registration -----

  /** The multipart form fields of POST /cases/register, as strings or absent. */
  datatype RegisterForm = RegisterForm(
    caseType: string, issueDescription: string,
    oppositePartyName: string, oppositePartyEmail: Option<string>,
    oppositePartyPhone: Option<string>, oppositePartyAddress: Option<string>,
    isCourtPending: Option<string>, caseNumber: Option<string>,
    firNumber: Option<string>, courtPoliceStation: Option<string>)

  function Documents(files: seq<UploadedFile>): (ds: seq<Document>)
    ensures |ds| == |files|
    ensures forall k :: 0 <= k < |files| ==> ds[k] == DocumentOf(files[k])
  {
    seq(|files|, k requires 0 <= k < |files| => DocumentOf(files[k]))
  }

  /** The case row a registration stores: the caller is the plaintiff, no defendant is
      bound yet, a form string that is empty becomes null, and only the exact string
      "true" marks the case as pending in court. */
  function NewCase(caller: Principal, f: RegisterForm, ct: CaseType, files: seq<UploadedFile>, now: int): Case {
    Case(ct, f.issueDescription, f.isCourtPending == Some("true"),
         NonEmpty(f.caseNumber), NonEmpty(f.firNumber), NonEmpty(f.courtPoliceStation),
         caller.id, None, PENDING, now,
         OppositeParty(f.oppositePartyName, NonEmpty(f.oppositePartyEmail),
                       NonEmpty(f.oppositePartyPhone), NonEmpty(f.oppositePartyAddress)),
         Documents(files))
  }

  const RegisteredDescription := "Case registered and pending review"

  function RegisteredMessage(ct: CaseType): string {
    "A new " + Lower(CaseTypeName(ct)) + " case has been registered and is pending review."
  }

  function RegisteredNotice(caller: Principal, caseId: CaseId, ct: CaseType): NotificationData {
    NotificationData(caller.id, CASE_UPDATE, "New Case Registered", RegisteredMessage(ct), Some(caseId))
  }

  /** POST /cases/register; `newId` is the id the database generates for the case. A
      `caseType` outside the enum, a missing one included, makes Prisma refuse the
      create, and nothing is written. */
  function RegisterSpec(t: Tables, caller: Principal, newId: CaseId, f: RegisterForm,
                        files: seq<UploadedFile>, now: int): (Tables, Outcome<Case>)
  {
    match CaseTypeOf(f.caseType)
    case None => (t, Failed(InvalidArgument))
    case Some(ct) =>
      var c := NewCase(caller, f, ct, files, now);
      (t.(cases := t.cases[newId := c],
          caseUpdates := t.caseUpdates + [CaseUpdate(newId, PENDING, RegisteredDescription)],
          notifications := WithRows(t.notifications, [RegisteredNotice(caller, newId, ct)])),
       Done(201, c))
  }

  /** A case type the enum does not have is refused before anything is written. */
  lemma RegisterNeedsCaseType(t: Tables, caller: Principal, newId: CaseId, f: RegisterForm,
                              files: seq<UploadedFile>, now: int)
    ensures var (t', out) := RegisterSpec(t, caller, newId, f, files, now);
      && (out.Failed? <==> CaseTypeOf(f.caseType).None?)
      && (out.Failed? ==> t' == t && out.error == InvalidArgument)
      && (!out.Failed? ==> out.Done? && CaseTypeName(out.value.caseType) == f.caseType)
  {
  }

  /** Registration records the caller as plaintiff of a PENDING case of the type given,
      with each form field stored, an empty one as null; it opens the timeline with
      exactly one PENDING entry and notifies the caller once. */
  lemma RegisterOpensTimeline(t: Tables, caller: Principal, newId: CaseId, f: RegisterForm,
                              files: seq<UploadedFile>, now: int)
    requires TablesValid(t) && newId !in t.cases && CaseTypeOf(f.caseType).Some?
    ensures var (t', out) := RegisterSpec(t, caller, newId, f, files, now);
      && TablesValid(t')
      && out.Done? && newId in t'.cases && t'.cases[newId] == out.value
      && out.value.plaintiffId == caller.id && out.value.defendantId.None?
      && out.value.status == PENDING
      && CaseTypeName(out.value.caseType) == f.caseType
      && out.value.issueDescription == f.issueDescription
      && (out.value.isCourtPending <==> f.isCourtPending == Some("true"))
      && out.value.caseNumber == NonEmpty(f.caseNumber)
      && out.value.firNumber == NonEmpty(f.firNumber)
      && out.value.courtPoliceStation == NonEmpty(f.courtPoliceStation)
      && out.value.oppositeParty.name == f.oppositePartyName
      && out.value.oppositeParty.email == NonEmpty(f.oppositePartyEmail)
      && out.value.oppositeParty.phone == NonEmpty(f.oppositePartyPhone)
      && out.value.oppositeParty.address == NonEmpty(f.oppositePartyAddress)
      && out.value.documents == Documents(files)
      && t'.caseUpdates == t.caseUpdates + [CaseUpdate(newId, PENDING, RegisteredDescription)]
      && |t'.notifications| == |t.notifications| + 1
      && t'.notifications[|t.notifications|].userId == caller.id
      && t'.notifications[|t.notifications|].caseId == Some(newId)
      && forall id :: id in t.cases ==> id in t'.cases && t'.cases[id] == t.cases[id]
  {
    var ct := CaseTypeOf(f.caseType).value;
    var (t', out) := RegisterSpec(t, caller, newId, f, files, now);
    WithRowsKeepsPositions(t.notifications, [RegisteredNotice(caller, newId, ct)]);
    assert AgreementsWellFormed(t') by {
      forall a | a in t'.agreements ensures t'.agreements[a].caseId in t'.cases {
        assert t'.agreements[a].caseId in t.cases;
      }
    }
  }

  lemma RegisterKeepsValid(t: Tables, caller: Principal, newId: CaseId, f: RegisterForm,
                           files: seq<UploadedFile>, now: int)
    requires TablesValid(t) && newId !in t.cases
    ensures TablesValid(RegisterSpec(t, caller, newId, f, files, now).0)
  {
    if CaseTypeOf(f.caseType).Some? {
      RegisterOpensTimeline(t, caller, newId, f, files, now);
    }
  }

  /** The route as a whole: `upload.array('documents', 10)` runs before the handler, and
      a file it refuses ends the request in the error handler, which answers 500 with
      multer's message (outside development) before anything is written. */
  function RegisterRoute(t: Tables, caller: Principal, newId: CaseId, f: RegisterForm,
                         files: seq<UploadedFile>, maxFileSize: nat, now: int): (Tables, Outcome<Case>)
  {
    match MulterRefusal(files, DocumentLimits(maxFileSize), AcceptsDocument, InvalidTypeMessage)
    case Some(m) => (t, Refused(500, m))
    case None => RegisterSpec(t, caller, newId, f, files, now)
  }

  /** A case is registered only with at most ten files, each of an allowed type and
      within the size limit; any other upload writes nothing and no case exists for it. */
  lemma RegisterRouteGate(t: Tables, caller: Principal, newId: CaseId, f: RegisterForm,
                          files: seq<UploadedFile>, maxFileSize: nat, now: int)
    ensures var (t', out) := RegisterRoute(t, caller, newId, f, files, maxFileSize, now);
      && (out.Done? ==> |files| <= 10
                        && forall k :: 0 <= k < |files| ==> files[k].mimetype in AllowedTypes && files[k].size <= maxFileSize)
      && ((|files| > 10 || exists k :: 0 <= k < |files| && (files[k].mimetype !in AllowedTypes || files[k].size > maxFileSize)) ==>
            t' == t && out.Refused? && out.code == 500)
      && (MulterRefusal(files, DocumentLimits(maxFileSize), AcceptsDocument, InvalidTypeMessage).None? ==>
            (t', out) == RegisterSpec(t, caller, newId, f, files, now))
  {
    MulterPasses(files, DocumentLimits(maxFileSize), AcceptsDocument, InvalidTypeMessage);
  }

  // ----- listing the caller's cases -----

  /** `OR: [{ plaintiffId }, { defendantId }]` plus the optional status and type. */
  predicate MyCaseMatches(c: Case, userId: UserId, status: Option<CaseStatus>, caseType: Option<CaseType>) {
    && IsParty(c, userId)
    && (status.Some? ==> c.status == status.value)
    && (caseType.Some? ==> c.caseType == caseType.value)
  }

  /** The timeline of a case, oldest entry first: only entries of that case (that none is
      missing is UpdatesOfComplete, the order UpdatesOfConcat). */
  function UpdatesOf(updates: seq<CaseUpdate>, caseId: CaseId): (r: seq<CaseUpdate>)
    ensures forall k :: 0 <= k < |r| ==> r[k].caseId == caseId && r[k] in updates
    ensures |r| <= |updates|
  {
    if updates == [] then []
    else (if updates[0].caseId == caseId then [updates[0]] else []) + UpdatesOf(updates[1..], caseId)
  }

  /** No entry of the case is left out of its timeline. */
  lemma {:induction false} UpdatesOfComplete(updates: seq<CaseUpdate>, caseId: CaseId)
    ensures forall k :: 0 <= k < |updates| && updates[k].caseId == caseId ==> updates[k] in UpdatesOf(updates, caseId)
  {
    if updates != [] {
      UpdatesOfComplete(updates[1..], caseId);
      assert forall k :: 1 <= k < |updates| ==> updates[k] == updates[1..][k - 1];
    }
  }

  /** The timeline keeps the order in which the entries were appended: the entries of a
      later batch come after those of an earlier one. */
  lemma {:induction false} UpdatesOfConcat(a: seq<CaseUpdate>, b: seq<CaseUpdate>, caseId: CaseId)
    ensures UpdatesOf(a + b, caseId) == UpdatesOf(a, caseId) + UpdatesOf(b, caseId)
  {
    if a == [] {
      assert a + b == b;
    } else {
      var head := if a[0].caseId == caseId then [a[0]] else [];
      assert (a + b)[0] == a[0] && (a + b)[1..] == a[1..] + b;
      UpdatesOfConcat(a[1..], b, caseId);
      calc {
        UpdatesOf(a + b, caseId);
        head + UpdatesOf(a[1..] + b, caseId);
        head + (UpdatesOf(a[1..], caseId) + UpdatesOf(b, caseId));
        (head + UpdatesOf(a[1..], caseId)) + UpdatesOf(b, caseId);
      }
    }
  }

  /** `caseUpdates: { orderBy: { createdAt: 'desc' }, take: n }` */
  function NewestUpdates(updates: seq<CaseUpdate>, caseId: CaseId, n: nat): (r: seq<CaseUpdate>)
    ensures var all := UpdatesOf(updates, caseId); |r| == if n < |all| then n else |all|
    ensures var all := UpdatesOf(updates, caseId);
      forall k :: 0 <= k < |r| ==> r[k] == all[|all| - 1 - k]
  {
    var all := UpdatesOf(updates, caseId);
    TakeOfReverse(all, n);
    Take(Reverse(all), n)
  }

  datatype CaseListing = CaseListing(
    ids: set<CaseId>, recent: map<CaseId, seq<CaseUpdate>>,
    page: int, limit: int, total: nat, pages: Option<int>)

  /** GET /cases/my-cases, with `page = 1` and `limit = 10`. The page of rows the
      response carries is a window, ordered by creation time, of `ids`; the listing keeps
      the whole matching set. A filter outside its enum, a NaN page or size, or a
      negative skip makes Prisma refuse the query. */
  function MyCasesSpec(t: Tables, caller: Principal, status: Option<string>, caseType: Option<string>,
                       page: Option<string>, limit: Option<string>): (out: Outcome<CaseListing>)
    ensures out.Done? ==>
      && StatusFilter(status).Some? && CaseTypeFilter(caseType).Some?
      && (forall id :: id in out.value.ids <==>
            id in t.cases && MyCaseMatches(t.cases[id], caller.id, StatusFilter(status).value, CaseTypeFilter(caseType).value))
      && out.value.total == |out.value.ids|
      && (forall id :: id in out.value.ids ==>
            id in out.value.recent && |out.value.recent[id]| <= 5
            && out.value.recent[id] == NewestUpdates(t.caseUpdates, id, 5))
      && Paging(page, limit, 10) == Some(PageWindow(out.value.page, out.value.limit))
      && out.value.pages == PageCount(out.value.total, out.value.limit)
    ensures out.Failed? <==> StatusFilter(status).None? || CaseTypeFilter(caseType).None? || Paging(page, limit, 10).None?
    ensures out.Failed? ==> out.error == InvalidArgument
    ensures !out.Failed? ==> out.Done?
  {
    match (StatusFilter(status), CaseTypeFilter(caseType), Paging(page, limit, 10))
    case (Some(st), Some(ct), Some(w)) =>
      var ids := set id | id in t.cases && MyCaseMatches(t.cases[id], caller.id, st, ct);
      var recent := map id | id in ids :: NewestUpdates(t.caseUpdates, id, 5);
      Done(200, CaseListing(ids, recent, w.page, w.limit, |ids|, PageCount(|ids|, w.limit)))
    case _ => Failed(InvalidArgument)
  }

  /** Without filters the listing is exactly the cases the caller is a party to, so no
      one sees another user's case through it, on any page the query can reach. */
  lemma MyCasesAreOwn(t: Tables, caller: Principal, page: Option<string>, limit: Option<string>)
    requires Paging(page, limit, 10).Some?
    ensures var out := MyCasesSpec(t, caller, None, None, page, limit);
      out.Done? && forall id :: id in out.value.ids <==> id in t.cases && IsParty(t.cases[id], caller.id)
  {
  }

  // ----- one case -----

  datatype CaseDetail = CaseDetail(id: CaseId, record: Case, panel: seq<PanelMember>, updates: seq<CaseUpdate>)

  /** Plaintiff, defendant or a member of the case's panel. */
  predicate CanSeeCase(t: Tables, caller: Principal, id: CaseId) {
    id in t.cases && (IsParty(t.cases[id], caller.id) || IsPanelMember(t.panels, id, caller.id))
  }

  /** GET /cases/:id: a missing case and a case the caller may not see give the same 404,
      for ADMIN as for anyone. */
  function DetailSpec(t: Tables, caller: Principal, id: CaseId): (out: Outcome<CaseDetail>)
    ensures out.Done? <==> CanSeeCase(t, caller, id)
    ensures !out.Done? ==> out == Refused(404, "Case not found or access denied")
    ensures out.Done? ==> out.value.record == t.cases[id]
                          && out.value.updates == Reverse(UpdatesOf(t.caseUpdates, id))
  {
    if !CanSeeCase(t, caller, id) then Refused(404, "Case not found or access denied")
    else Done(200, CaseDetail(id, t.cases[id], if id in t.panels then t.panels[id] else [],
                              Reverse(UpdatesOf(t.caseUpdates, id))))
  }

  /** An ADMIN who is neither party nor panelist does not see the case. */
  lemma AdminNotPrivileged(t: Tables, admin: Principal, id: CaseId)
    requires admin.role == ADMIN && id in t.cases
    requires !IsParty(t.cases[id], admin.id) && !IsPanelMember(t.panels, id, admin.id)
    ensures DetailSpec(t, admin, id) == Refused(404, "Case not found or access denied")
  {
  }

  // ----- the status update -----

  /** ADMIN, or a member of this case's panel. */
  predicate MayUpdateStatus(t: Tables, caller: Principal, id: CaseId) {
    caller.role == ADMIN || IsPanelMember(t.panels, id, caller.id)
  }

  function StatusDescription(description: Option<string>, status: string): string {
    OrDefault(description, "Case status updated to " + status)
  }

  /** The plaintiff always; the defendant too when one is bound. */
  function StatusRecipients(c: Case, id: CaseId, status: string): (ns: seq<NotificationData>)
    ensures |ns| == if c.defendantId.Some? then 2 else 1
    ensures ns[0].userId == c.plaintiffId
    ensures |ns| == 2 ==> ns[1].userId == c.defendantId.value
    ensures forall k :: 0 <= k < |ns| ==> ns[k].ntype == CASE_UPDATE && ns[k].caseId == Some(id)
                                          && ns[k].title == "Case Status Updated"
  {
    [NotificationData(c.plaintiffId, CASE_UPDATE, "Case Status Updated",
                      "Your case status has been updated to " + status, Some(id))]
    + (if c.defendantId.Some? then
         [NotificationData(c.defendantId.value, CASE_UPDATE, "Case Status Updated",
                           "Case status has been updated to " + status, Some(id))]
       else [])
  }

  /** PATCH /cases/:id/status. An absent status leaves the case as it is but makes the
      CaseUpdate insert fail; a status outside the enum makes the case update fail. */
  function UpdateStatusSpec(t: Tables, caller: Principal, id: CaseId, status: Option<string>,
                            description: Option<string>): (Tables, Outcome<Case>)
  {
    if !MayUpdateStatus(t, caller, id) then (t, Refused(403, "Permission denied"))
    else if status.Some? && StatusOf(status.value).None? then (t, Failed(InvalidArgument))
    else if id !in t.cases then (t, Failed(RecordNotFound))
    else if status.None? then (t, Failed(InvalidArgument))
    else
      var s := status.value;
      var c := t.cases[id].(status := StatusOf(s).value);
      var ns := StatusRecipients(c, id, s);
      (t.(cases := t.cases[id := c],
          caseUpdates := t.caseUpdates + [CaseUpdate(id, c.status, StatusDescription(description, s))],
          notifications := WithRows(t.notifications, ns)),
       Done(200, c))
  }

  /** Only ADMIN and the case's panel change a status; anyone else gets 403 and nothing
      is written. */
  lemma UpdateStatusPermission(t: Tables, caller: Principal, id: CaseId, status: Option<string>,
                               description: Option<string>)
    ensures var (t', out) := UpdateStatusSpec(t, caller, id, status, description);
      && (!MayUpdateStatus(t, caller, id) <==> out == Refused(403, "Permission denied"))
      && (!out.Done? ==> t' == t)
  {
  }

  /** Any status may follow any status: a permitted update of an existing case to a
      valid status always succeeds, writes that status, appends exactly one CaseUpdate
      (the supplied description, or the generated one), and notifies the plaintiff and
      the bound defendant, nothing more. */
  lemma UpdateStatusWritesTrail(t: Tables, caller: Principal, id: CaseId, st: CaseStatus,
                                description: Option<string>)
    requires MayUpdateStatus(t, caller, id) && id in t.cases
    ensures var (t', out) := UpdateStatusSpec(t, caller, id, Some(StatusName(st)), description);
      && out.Done? && out.value.status == st
      && t'.cases == t.cases[id := t.cases[id].(status := st)]
      && t'.caseUpdates == t.caseUpdates + [CaseUpdate(id, st, StatusDescription(description, StatusName(st)))]
      && (NonEmpty(description).Some? ==> t'.caseUpdates[|t.caseUpdates|].description == description.value)
      && t'.notifications == WithRows(t.notifications, StatusRecipients(t.cases[id], id, StatusName(st)))
      && t' == t.(cases := t'.cases, caseUpdates := t'.caseUpdates, notifications := t'.notifications)
  {
    StatusNamesRoundTrip(st);
  }

  lemma UpdateStatusKeepsValid(t: Tables, caller: Principal, id: CaseId, status: Option<string>,
                               description: Option<string>)
    requires TablesValid(t)
    ensures TablesValid(UpdateStatusSpec(t, caller, id, status, description).0)
  {
    var (t', out) := UpdateStatusSpec(t, caller, id, status, description);
    if out.Done? {
      WithRowsKeepsPositions(t.notifications, StatusRecipients(t'.cases[id], id, status.value));
    }
  }

  // ----- the writing handlers -----

  method Register(db: Database, caller: Principal, newId: CaseId, f: RegisterForm,
                  files: seq<UploadedFile>, now: int) returns (out: Outcome<Case>)
    requires db.Valid() && newId !in db.cases
    modifies db`cases, db`caseUpdates, db`notifications
    ensures db.Valid()
    ensures (db.Snapshot(), out) == RegisterSpec(old(db.Snapshot()), caller, newId, f, files, now)
  {
    ghost var t := db.Snapshot();
    var ct := CaseTypeOf(f.caseType);
    if ct.None? {
      return Failed(InvalidArgument);
    }
    var newCase := NewCase(caller, f, ct.value, files, now);
    db.cases := db.cases[newId := newCase];
    db.caseUpdates := db.caseUpdates + [CaseUpdate(newId, PENDING, RegisteredDescription)];
    CreateNotifications(db, [RegisteredNotice(caller, newId, ct.value)]);
    assert db.Snapshot() == RegisterSpec(t, caller, newId, f, files, now).0;
    RegisterKeepsValid(t, caller, newId, f, files, now);
    return Done(201, newCase);
  }

  /** The writes once the checks have passed: updates the case, appends the CaseUpdate,
      then builds the notification list with `push` and inserts it when it is not
      empty. */
  method CommitStatus(db: Database, id: CaseId, s: string, description: Option<string>) returns (updatedCase: Case)
    requires id in db.cases && StatusOf(s).Some? && IdsArePositions(db.notifications)
    modifies db`cases, db`caseUpdates, db`notifications
    ensures updatedCase == old(db.cases[id]).(status := StatusOf(s).value)
    ensures db.Snapshot() == old(db.Snapshot()).(
      cases := old(db.cases)[id := updatedCase],
      caseUpdates := old(db.caseUpdates) + [CaseUpdate(id, updatedCase.status, StatusDescription(description, s))],
      notifications := WithRows(old(db.notifications), StatusRecipients(updatedCase, id, s)))
  {
    updatedCase := db.cases[id].(status := StatusOf(s).value);
    db.cases := db.cases[id := updatedCase];
    db.caseUpdates := db.caseUpdates + [CaseUpdate(id, updatedCase.status, StatusDescription(description, s))];

    var notifications: seq<NotificationData> := [];
    notifications := notifications + [NotificationData(updatedCase.plaintiffId, CASE_UPDATE, "Case Status Updated",
                                                       "Your case status has been updated to " + s, Some(id))];
    if updatedCase.defendantId.Some? {
      notifications := notifications + [NotificationData(updatedCase.defendantId.value, CASE_UPDATE, "Case Status Updated",
                                                         "Case status has been updated to " + s, Some(id))];
    }
    assert notifications == StatusRecipients(updatedCase, id, s);
    if |notifications| > 0 {
      CreateNotifications(db, notifications);
    }
  }

  /** Checks permission, the status value and the case, then commits. */
  method UpdateStatus(db: Database, caller: Principal, id: CaseId, status: Option<string>,
                      description: Option<string>) returns (out: Outcome<Case>)
    requires db.Valid()
    modifies db`cases, db`caseUpdates, db`notifications
    ensures db.Valid()
    ensures (db.Snapshot(), out) == UpdateStatusSpec(old(db.Snapshot()), caller, id, status, description)
  {
    ghost var t := db.Snapshot();
    var hasPermission := caller.role == ADMIN || IsPanelMember(db.panels, id, caller.id);
    if !hasPermission {
      return Refused(403, "Permission denied");
    }
    if status.Some? && StatusOf(status.value).None? {
      return Failed(InvalidArgument);
    }
    if id !in db.cases {
      return Failed(RecordNotFound);
    }
    if status.None? {
      return Failed(InvalidArgument);
    }
    var updatedCase := CommitStatus(db, id, status.value, description);
    UpdateStatusKeepsValid(t, caller, id, status, description);
    return Done(200, updatedCase);
  }
}
