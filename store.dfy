/** The record store the route handlers read and write: one field per database table.
    Tables that rows are looked up in by id are maps; append-only logs (case updates,
    signatures, registrations, notifications) are sequences in insertion order, which is
    also their creation-time order.

    Identifiers are opaque strings chosen by the database (uuid), so a handler that
    inserts a keyed row receives the fresh id as a parameter. Notification ids are the
    row's position in the table, which keeps them unique without a generator. */
module Store {
  import opened Common

  type UserId = string
  type CaseId = string
  type AgreementId = string
  type WorkshopId = string
  type ResourceId = string

  datatype Role = USER | ADMIN | LAWYER | RELIGIOUS_SCHOLAR | SOCIAL_EXPERT

  datatype CaseStatus =
    | PENDING | AWAITING_RESPONSE | ACCEPTED | PANEL_CREATED
    | MEDIATION_IN_PROGRESS | RESOLVED | UNRESOLVED | REJECTED

  datatype CaseType = FAMILY | BUSINESS | CRIMINAL | PROPERTY | OTHER_CASE

  datatype AgreementStatus = DRAFT | PENDING_SIGNATURES | SIGNED | EXECUTED

  datatype NotificationType =
    | CASE_UPDATE | PANEL_INVITATION | MEDIATION_SCHEDULED | CASE_RESOLVED | SYSTEM
    | WORKSHOP_REMINDER | WORKSHOP_CANCELLED | RESOURCE_PUBLISHED | AGREEMENT_READY

  datatype DocumentType = IMAGE | VIDEO | AUDIO | PDF | OTHER

  /** The authenticated caller the `authenticateToken` middleware attaches to a request. */
  datatype Principal = Principal(id: UserId, role: Role)

  datatype Address = Address(street: string, city: string, zipCode: string)

  datatype User = User(
    name: string, email: string, phone: string, password: string, age: Option<int>,
    gender: string, photo: Option<string>, role: Role, isVerified: bool,
    address: Option<Address>)

  datatype OppositeParty = OppositeParty(
    name: string, email: Option<string>, phone: Option<string>, address: Option<string>)

  datatype Document = Document(filename: string, filepath: string, fileType: DocumentType, fileSize: nat)

  datatype Case = Case(
    caseType: CaseType, issueDescription: string, isCourtPending: bool,
    caseNumber: Option<string>, firNumber: Option<string>, courtPoliceStation: Option<string>,
    plaintiffId: UserId, defendantId: Option<UserId>, status: CaseStatus, createdAt: int,
    oppositeParty: OppositeParty, documents: seq<Document>)

  datatype CaseUpdate = CaseUpdate(caseId: CaseId, status: CaseStatus, description: string)

  datatype PanelMember = PanelMember(userId: UserId, role: Role)

  datatype Agreement = Agreement(
    caseId: CaseId, templateId: Option<string>, content: string, status: AgreementStatus,
    createdAt: int, signedAt: Option<int>)

  datatype Signature = Signature(agreementId: AgreementId, userId: UserId, ipAddress: string, userAgent: string)

  datatype Notification = Notification(
    id: nat, userId: UserId, ntype: NotificationType, title: string, message: string,
    caseId: Option<CaseId>, isRead: bool)

  /** The fields a handler supplies for a new notification row (`isRead` starts false). */
  datatype NotificationData = NotificationData(
    userId: UserId, ntype: NotificationType, title: string, message: string, caseId: Option<CaseId>)

  datatype Workshop = Workshop(
    title: string, description: string, instructor: string, maxParticipants: int,
    scheduledAt: int, duration: int, meetingUrl: Option<string>, isActive: bool)

  datatype Registration = Registration(userId: UserId, workshopId: WorkshopId, attended: bool)

  datatype Resource = Resource(
    title: string, description: string, content: string, rtype: string, category: string,
    videoUrl: Option<string>, thumbnailUrl: Option<string>, author: string,
    isPublished: bool, viewCount: nat, tags: set<string>)

  datatype Progress = Progress(progress: int, completed: bool, lastAccessed: int)

  /** The Prisma errors a handler passes to `next(error)`: P2002, P2025, P2003, and a
      query Prisma refuses before running it (a value outside an enum, a missing
      required field), which carries no code. */
  datatype DbError = UniqueViolation(target: seq<string>) | RecordNotFound | ForeignKeyViolation | InvalidArgument

  // ----- names as the API writes them -----

  function StatusName(s: CaseStatus): string {
    match s
    case PENDING => "PENDING"
    case AWAITING_RESPONSE => "AWAITING_RESPONSE"
    case ACCEPTED => "ACCEPTED"
    case PANEL_CREATED => "PANEL_CREATED"
    case MEDIATION_IN_PROGRESS => "MEDIATION_IN_PROGRESS"
    case RESOLVED => "RESOLVED"
    case UNRESOLVED => "UNRESOLVED"
    case REJECTED => "REJECTED"
  }

  function CaseTypeName(t: CaseType): string {
    match t
    case FAMILY => "FAMILY"
    case BUSINESS => "BUSINESS"
    case CRIMINAL => "CRIMINAL"
    case PROPERTY => "PROPERTY"
    case OTHER_CASE => "OTHER"
  }

  /** The status a request string names, if any. */
  function StatusOf(s: string): (r: Option<CaseStatus>)
    ensures r.Some? ==> StatusName(r.value) == s
  {
    if s == "PENDING" then Some(PENDING)
    else if s == "AWAITING_RESPONSE" then Some(AWAITING_RESPONSE)
    else if s == "ACCEPTED" then Some(ACCEPTED)
    else if s == "PANEL_CREATED" then Some(PANEL_CREATED)
    else if s == "MEDIATION_IN_PROGRESS" then Some(MEDIATION_IN_PROGRESS)
    else if s == "RESOLVED" then Some(RESOLVED)
    else if s == "UNRESOLVED" then Some(UNRESOLVED)
    else if s == "REJECTED" then Some(REJECTED)
    else None
  }

  /** Every status is named by exactly the string the API writes for it. */
  lemma StatusNamesRoundTrip(st: CaseStatus)
    ensures StatusOf(StatusName(st)) == Some(st)
  {
  }

  function CaseTypeOf(s: string): (r: Option<CaseType>)
    ensures r.Some? ==> CaseTypeName(r.value) == s
  {
    if s == "FAMILY" then Some(FAMILY)
    else if s == "BUSINESS" then Some(BUSINESS)
    else if s == "CRIMINAL" then Some(CRIMINAL)
    else if s == "PROPERTY" then Some(PROPERTY)
    else if s == "OTHER" then Some(OTHER_CASE)
    else None
  }

  /** A query-string enum filter as a handler applies it: an absent or empty value adds
      no condition (Some(None)); a value outside the enum makes Prisma refuse the query
      (None). */
  function StatusFilter(raw: Option<string>): (r: Option<Option<CaseStatus>>)
    ensures NonEmpty(raw).None? ==> r == Some(None)
    ensures NonEmpty(raw).Some? ==> (r.Some? <==> StatusOf(raw.value).Some?)
    ensures r.Some? && r.value.Some? ==> raw == Some(StatusName(r.value.value))
  {
    if NonEmpty(raw).None? then Some(None)
    else match StatusOf(raw.value)
      case None => None
      case Some(st) => Some(Some(st))
  }

  function CaseTypeFilter(raw: Option<string>): (r: Option<Option<CaseType>>)
    ensures NonEmpty(raw).None? ==> r == Some(None)
    ensures NonEmpty(raw).Some? ==> (r.Some? <==> CaseTypeOf(raw.value).Some?)
    ensures r.Some? && r.value.Some? ==> raw == Some(CaseTypeName(r.value.value))
  {
    if NonEmpty(raw).None? then Some(None)
    else match CaseTypeOf(raw.value)
      case None => None
      case Some(ct) => Some(Some(ct))
  }

  function AgreementStatusName(s: AgreementStatus): string {
    match s
    case DRAFT => "DRAFT"
    case PENDING_SIGNATURES => "PENDING_SIGNATURES"
    case SIGNED => "SIGNED"
    case EXECUTED => "EXECUTED"
  }

  function AgreementStatusOf(s: string): (r: Option<AgreementStatus>)
    ensures r.Some? ==> AgreementStatusName(r.value) == s
  {
    if s == "DRAFT" then Some(DRAFT)
    else if s == "PENDING_SIGNATURES" then Some(PENDING_SIGNATURES)
    else if s == "SIGNED" then Some(SIGNED)
    else if s == "EXECUTED" then Some(EXECUTED)
    else None
  }

  /** Every agreement status is named by exactly the string the API writes for it. */
  lemma AgreementStatusNamesRoundTrip(st: AgreementStatus)
    ensures AgreementStatusOf(AgreementStatusName(st)) == Some(st)
  {
  }

  /** The resource-type enum. A resource's `type` column holds one of these names. */
  const ResourceTypes: set<string> := {"ARTICLE", "VIDEO", "WORKSHOP", "GUIDE", "TEMPLATE"}

  /** `if (type) where.type = type` on the resource-type enum: the same rule as the case
      filters, a falsy value means no condition and any other name outside the enum
      makes Prisma refuse the query (None). */
  function ResourceTypeFilter(raw: Option<string>): (r: Option<Option<string>>)
    ensures NonEmpty(raw).None? ==> r == Some(None)
    ensures NonEmpty(raw).Some? ==> (r.Some? <==> raw.value in ResourceTypes)
    ensures r.Some? && r.value.Some? ==> raw == Some(r.value.value) && r.value.value in ResourceTypes
  {
    if NonEmpty(raw).None? then Some(None)
    else if raw.value in ResourceTypes then Some(Some(raw.value))
    else None
  }


  /** The enum value a role string in a request body denotes, if any. */
  function RoleOf(s: string): Option<Role> {
    if s == "USER" then Some(USER)
    else if s == "ADMIN" then Some(ADMIN)
    else if s == "LAWYER" then Some(LAWYER)
    else if s == "RELIGIOUS_SCHOLAR" then Some(RELIGIOUS_SCHOLAR)
    else if s == "SOCIAL_EXPERT" then Some(SOCIAL_EXPERT)
    else None
  }

  // ----- relations used by the access checks -----

  /** `panel: { members: { some: { userId } } }` for the case's panel. */
  predicate IsPanelMember(panels: map<CaseId, seq<PanelMember>>, caseId: CaseId, userId: UserId) {
    caseId in panels && exists k | 0 <= k < |panels[caseId]| :: panels[caseId][k].userId == userId
  }

  /** The user is the case's plaintiff or its bound defendant. */
  predicate IsParty(c: Case, userId: UserId) {
    c.plaintiffId == userId || c.defendantId == Some(userId)
  }

  // ----- notification rows -----

  function NewRow(id: nat, d: NotificationData): Notification {
    Notification(id, d.userId, d.ntype, d.title, d.message, d.caseId, false)
  }

  /** The table after `createMany` of `ds`: the rows are appended in order, unread, each
      numbered by its position. */
  function WithRows(log: seq<Notification>, ds: seq<NotificationData>): seq<Notification> {
    log + seq(|ds|, k requires 0 <= k < |ds| => NewRow(|log| + k, ds[k]))
  }

  predicate IdsArePositions(log: seq<Notification>) {
    forall i :: 0 <= i < |log| ==> log[i].id == i
  }

  /** The old rows come first, then one new row per datum at its own position. */
  lemma WithRowsShape(log: seq<Notification>, ds: seq<NotificationData>)
    ensures |WithRows(log, ds)| == |log| + |ds|
    ensures WithRows(log, ds)[..|log|] == log
    ensures forall k :: 0 <= k < |ds| ==> WithRows(log, ds)[|log| + k] == NewRow(|log| + k, ds[k])
  {
  }

  lemma WithRowsKeepsPositions(log: seq<Notification>, ds: seq<NotificationData>)
    requires IdsArePositions(log)
    ensures IdsArePositions(WithRows(log, ds))
    ensures |WithRows(log, ds)| == |log| + |ds|
  {
  }

  /** A snapshot of every table: the value a handler's specification maps to the next one. */
  datatype Tables = Tables(
    users: map<UserId, User>,
    cases: map<CaseId, Case>,
    caseUpdates: seq<CaseUpdate>,
    panels: map<CaseId, seq<PanelMember>>,
    agreements: map<AgreementId, Agreement>,
    signatures: seq<Signature>,
    notifications: seq<Notification>,
    workshops: map<WorkshopId, Workshop>,
    registrations: seq<Registration>,
    resources: map<ResourceId, Resource>,
    progress: map<(UserId, ResourceId), Progress>,
    templates: set<string>)

  /** What a handler sends: a success status with its body, a refusal it writes itself
      (`res.status(code).json({ message })`), or a database error it hands to `next`. */
  datatype Outcome<T> = Done(code: nat, value: T) | Refused(code: nat, message: string) | Failed(error: DbError)

  /** Every agreement belongs to an existing case (the foreign key), and a case has at
      most one agreement (the one-to-one relation). */
  predicate AgreementsWellFormed(t: Tables) {
    && (forall a :: a in t.agreements ==> t.agreements[a].caseId in t.cases)
    && (forall a, b :: a in t.agreements && b in t.agreements && a != b ==> t.agreements[a].caseId != t.agreements[b].caseId)
  }

  /** A user signs an agreement at most once: (agreement, user) is unique. */
  predicate SignaturesUnique(sigs: seq<Signature>) {
    forall i, j :: 0 <= i < j < |sigs| && sigs[i].agreementId == sigs[j].agreementId ==> sigs[i].userId != sigs[j].userId
  }

  /** A user registers for a workshop at most once: (user, workshop) is unique. */
  predicate RegistrationsUnique(regs: seq<Registration>) {
    forall i, j :: 0 <= i < j < |regs| && regs[i].workshopId == regs[j].workshopId ==> regs[i].userId != regs[j].userId
  }

  predicate DistinctMembers(ms: seq<PanelMember>) {
    forall i, j :: 0 <= i < j < |ms| ==> ms[i].userId != ms[j].userId
  }

  /** The constraints the schema and the handlers keep. */
  predicate TablesValid(t: Tables) {
    && IdsArePositions(t.notifications)
    && AgreementsWellFormed(t)
    && SignaturesUnique(t.signatures)
    && RegistrationsUnique(t.registrations)
    && (forall c :: c in t.panels ==> DistinctMembers(t.panels[c]))
  }

  /** Appending a signature by a user who has not signed that agreement keeps the
      signatures unique. */
  lemma SignaturesUniqueAppend(sigs: seq<Signature>, s: Signature)
    requires SignaturesUnique(sigs)
    requires forall k :: 0 <= k < |sigs| && sigs[k].agreementId == s.agreementId ==> sigs[k].userId != s.userId
    ensures SignaturesUnique(sigs + [s])
  {
    var all := sigs + [s];
    forall i, j | 0 <= i < j < |all| && all[i].agreementId == all[j].agreementId
      ensures all[i].userId != all[j].userId
    {
      assert all[i] == sigs[i];
      if j < |sigs| {
        assert all[j] == sigs[j];
      }
    }
  }

  /** Rewriting one agreement without moving it to another case, and one case in
      place, keeps the agreements well formed. */
  lemma AgreementsWellFormedAfterUpdate(t: Tables, id: AgreementId, a: Agreement, caseId: CaseId, c: Case)
    requires AgreementsWellFormed(t) && id in t.agreements && a.caseId == t.agreements[id].caseId
    requires caseId in t.cases
    ensures AgreementsWellFormed(t.(agreements := t.agreements[id := a], cases := t.cases[caseId := c]))
  {
    var t' := t.(agreements := t.agreements[id := a], cases := t.cases[caseId := c]);
    forall x, y | x in t'.agreements && y in t'.agreements && x != y
      ensures t'.agreements[x].caseId != t'.agreements[y].caseId
    {
      assert t'.agreements[x].caseId == t.agreements[x].caseId;
      assert t'.agreements[y].caseId == t.agreements[y].caseId;
    }
  }

  /** Rewriting one registration without changing its user or workshop keeps the
      registrations unique. */
  lemma RegistrationsUniqueAfterSet(regs: seq<Registration>, k: nat, r: Registration)
    requires RegistrationsUnique(regs) && k < |regs|
    requires r.userId == regs[k].userId && r.workshopId == regs[k].workshopId
    ensures RegistrationsUnique(regs[k := r])
  {
    var regs' := regs[k := r];
    forall i, j | 0 <= i < j < |regs'| && regs'[i].workshopId == regs'[j].workshopId
      ensures regs'[i].userId != regs'[j].userId
    {
      assert regs'[i].workshopId == regs[i].workshopId && regs'[i].userId == regs[i].userId;
      assert regs'[j].workshopId == regs[j].workshopId && regs'[j].userId == regs[j].userId;
    }
  }

  /** Tables that keep the keyed and unique tables of valid ones, and whose notification
      ids are positions, are valid. */
  lemma ValidWhenKeysKept(t: Tables, t': Tables)
    requires TablesValid(t) && IdsArePositions(t'.notifications)
    requires t'.cases == t.cases && t'.agreements == t.agreements && t'.signatures == t.signatures
    requires t'.registrations == t.registrations && t'.panels == t.panels
    ensures TablesValid(t')
  {
  }

  class Database {
    var users: map<UserId, User>
    var cases: map<CaseId, Case>
    var caseUpdates: seq<CaseUpdate>
    var panels: map<CaseId, seq<PanelMember>>
    var agreements: map<AgreementId, Agreement>
    var signatures: seq<Signature>
    var notifications: seq<Notification>
    var workshops: map<WorkshopId, Workshop>
    var registrations: seq<Registration>
    var resources: map<ResourceId, Resource>
    var progress: map<(UserId, ResourceId), Progress>
    /** The ids of the agreement templates; no handler of this model writes them. */
    var templates: set<string>

    function Snapshot(): Tables
      reads this
    {
      Tables(users, cases, caseUpdates, panels, agreements, signatures, notifications,
             workshops, registrations, resources, progress, templates)
    }

    ghost predicate Valid()
      reads this
    {
      TablesValid(Snapshot())
    }

    constructor ()
      ensures Valid()
      ensures Snapshot() == Tables(map[], map[], [], map[], map[], [], [], map[], [], map[], map[], {})
    {
      users, cases, caseUpdates, panels := map[], map[], [], map[];
      agreements, signatures, notifications := map[], [], [];
      workshops, registrations, resources, progress := map[], [], map[], map[];
      templates := {};
    }
  }

  /** `prisma.notification.createMany({ data: ds })`, one insert after another. */
  method CreateNotifications(db: Database, ds: seq<NotificationData>)
    requires IdsArePositions(db.notifications)
    modifies db`notifications
    ensures db.notifications == WithRows(old(db.notifications), ds)
    ensures IdsArePositions(db.notifications)
  {
    ghost var log := db.notifications;
    var i := 0;
    while i < |ds|
      invariant 0 <= i <= |ds|
      invariant db.notifications == WithRows(log, ds[..i])
    {
      assert WithRows(log, ds[..i + 1]) == WithRows(log, ds[..i]) + [NewRow(|log| + i, ds[i])];
      db.notifications := db.notifications + [NewRow(|db.notifications|, ds[i])];
      i := i + 1;
    }
    assert ds[..i] == ds;
    WithRowsKeepsPositions(log, ds);
  }
}
