/** The admin routes: dashboard counts and the monthly trend fold, the filtered case
    list, panel formation behind the role-coverage gate, the panel-member directory and
    user verification.

    Every route sits behind `requireAdmin`, which is not part of this model: the
    handlers below are those an ADMIN caller reaches. */
module Admin {
  import opened Common
  import opened Store

  // ----- dashboard statistics -----

  function CasesWith(cases: map<CaseId, Case>, sts: set<CaseStatus>): set<CaseId> {
    set id | id in cases && cases[id].status in sts
  }

  const InProgressStatuses: set<CaseStatus> := {AWAITING_RESPONSE, ACCEPTED, PANEL_CREATED, MEDIATION_IN_PROGRESS}

  datatype DashboardStats = DashboardStats(
    totalCases: nat, pendingCases: nat, inProgressCases: nat, resolvedCases: nat,
    unresolvedCases: nat, totalUsers: nat)

  /** The six `count` queries. */
  function Stats(t: Tables): DashboardStats {
    DashboardStats(
      |t.cases|,
      |CasesWith(t.cases, {PENDING})|,
      |CasesWith(t.cases, InProgressStatuses)|,
      |CasesWith(t.cases, {RESOLVED})|,
      |CasesWith(t.cases, {UNRESOLVED})|,
      |set u | u in t.users && t.users[u].role == USER|)
  }

  lemma CasesWithUnion(cases: map<CaseId, Case>, a: set<CaseStatus>, b: set<CaseStatus>)
    requires a !! b
    ensures |CasesWith(cases, a + b)| == |CasesWith(cases, a)| + |CasesWith(cases, b)|
  {
    assert CasesWith(cases, a + b) == CasesWith(cases, a) + CasesWith(cases, b);
    assert CasesWith(cases, a) !! CasesWith(cases, b);
  }

  const AllStatuses: set<CaseStatus> :=
    {PENDING, AWAITING_RESPONSE, ACCEPTED, PANEL_CREATED, MEDIATION_IN_PROGRESS, RESOLVED, UNRESOLVED, REJECTED}

  lemma InAllStatuses(st: CaseStatus)
    ensures st in AllStatuses
  {
    match st
    case PENDING =>
    case AWAITING_RESPONSE =>
    case ACCEPTED =>
    case PANEL_CREATED =>
    case MEDIATION_IN_PROGRESS =>
    case RESOLVED =>
    case UNRESOLVED =>
    case REJECTED =>
  }

  lemma CasesWithAll(cases: map<CaseId, Case>)
    ensures |CasesWith(cases, AllStatuses)| == |cases|
  {
    forall id | id in cases ensures cases[id].status in AllStatuses {
      InAllStatuses(cases[id].status);
    }
    assert CasesWith(cases, AllStatuses) == cases.Keys;
  }

  /** The five status buckets of the dashboard are disjoint, and together with the
      rejected cases they are every case: so the pending, in-progress, resolved and
      unresolved counts never add up to more than the total. */
  lemma StatsPartition(t: Tables)
    ensures var s := Stats(t);
      s.totalCases == s.pendingCases + s.inProgressCases + s.resolvedCases + s.unresolvedCases
                      + |CasesWith(t.cases, {REJECTED})|
  {
    var c := t.cases;
    var a := {PENDING} + InProgressStatuses;
    var b := a + {RESOLVED};
    var d := b + {UNRESOLVED};
    assert PENDING !in InProgressStatuses;
    CasesWithUnion(c, {PENDING}, InProgressStatuses);
    assert RESOLVED !in a;
    CasesWithUnion(c, a, {RESOLVED});
    assert UNRESOLVED !in b;
    CasesWithUnion(c, b, {UNRESOLVED});
    assert REJECTED !in d;
    CasesWithUnion(c, d, {REJECTED});
    CasesWithAll(c);
    assert d + {REJECTED} == AllStatuses;
  }

  function CasesOfType(cases: map<CaseId, Case>, ct: CaseType): set<CaseId> {
    set id | id in cases && cases[id].caseType == ct
  }

  /** `groupBy({ by: ['caseType'] })`: one entry per case type that occurs. */
  function CaseTypeDistribution(cases: map<CaseId, Case>): map<CaseType, nat> {
    map ct | ct in (set id | id in cases :: cases[id].caseType) :: |CasesOfType(cases, ct)|
  }

  /** The distribution lists exactly the case types that occur, each with its number of
      cases, which is never zero. */
  lemma DistributionCounts(cases: map<CaseId, Case>)
    ensures var r := CaseTypeDistribution(cases);
      && (forall ct :: ct in r <==> exists id :: id in cases && cases[id].caseType == ct)
      && (forall ct :: ct in r ==> r[ct] == |CasesOfType(cases, ct)| >= 1)
  {
    var r := CaseTypeDistribution(cases);
    forall ct | ct in r ensures |CasesOfType(cases, ct)| >= 1 {
      var id :| id in cases && cases[id].caseType == ct;
      assert id in CasesOfType(cases, ct);
    }
  }

  // The monthly trend: the `reduce` over the cases of the last six months. Each row is
  // the case's month (`YYYY-MM` of its creation time) and its status.

  datatype MonthCounts = MonthCounts(total: nat, resolved: nat, pending: nat)

  /** One step of the reducer: open the month at zero if needed, count the case, and
      count it once more as resolved, or else as pending when it is PENDING or
      AWAITING_RESPONSE. */
  function AddCase(acc: map<string, MonthCounts>, month: string, status: CaseStatus): map<string, MonthCounts> {
    var m := if month in acc then acc[month] else MonthCounts(0, 0, 0);
    var m1 := m.(total := m.total + 1);
    var m2 := if status == RESOLVED then m1.(resolved := m1.resolved + 1)
              else if status == PENDING || status == AWAITING_RESPONSE then m1.(pending := m1.pending + 1)
              else m1;
    acc[month := m2]
  }

  /** `rows.reduce(AddCase, {})`, which folds from the first row. */
  function MonthlyStats(rows: seq<(string, CaseStatus)>): map<string, MonthCounts> {
    if rows == [] then map[]
    else AddCase(MonthlyStats(rows[..|rows| - 1]), rows[|rows| - 1].0, rows[|rows| - 1].1)
  }

  function CountMonth(rows: seq<(string, CaseStatus)>, month: string, sts: set<CaseStatus>): nat {
    if rows == [] then 0
    else CountMonth(rows[..|rows| - 1], month, sts)
         + (if rows[|rows| - 1].0 == month && rows[|rows| - 1].1 in sts then 1 else 0)
  }

  function Get(acc: map<string, MonthCounts>, month: string): MonthCounts {
    if month in acc then acc[month] else MonthCounts(0, 0, 0)
  }

  /** Each month's entry counts exactly its cases: all of them in `total`, the RESOLVED
      ones in `resolved`, the PENDING and AWAITING_RESPONSE ones in `pending`. */
  lemma {:induction false} MonthlyStatsCount(rows: seq<(string, CaseStatus)>, month: string)
    ensures Get(MonthlyStats(rows), month)
         == MonthCounts(CountMonth(rows, month, AllStatuses), CountMonth(rows, month, {RESOLVED}),
                        CountMonth(rows, month, {PENDING, AWAITING_RESPONSE}))
  {
    if rows != [] {
      MonthlyStatsCount(rows[..|rows| - 1], month);
      InAllStatuses(rows[|rows| - 1].1);
    }
  }

  lemma {:induction false} CountMonthBuckets(rows: seq<(string, CaseStatus)>, month: string)
    ensures CountMonth(rows, month, AllStatuses)
         >= CountMonth(rows, month, {RESOLVED}) + CountMonth(rows, month, {PENDING, AWAITING_RESPONSE})
  {
    if rows != [] {
      CountMonthBuckets(rows[..|rows| - 1], month);
      InAllStatuses(rows[|rows| - 1].1);
    }
  }

  /** The trend has an entry for exactly the months that occur in the rows. */
  lemma {:induction false} MonthlyStatsKeys(rows: seq<(string, CaseStatus)>, month: string)
    ensures month in MonthlyStats(rows) <==> exists k :: 0 <= k < |rows| && rows[k].0 == month
  {
    if rows != [] {
      var init := rows[..|rows| - 1];
      MonthlyStatsKeys(init, month);
      if month in MonthlyStats(init) {
        var k :| 0 <= k < |init| && init[k].0 == month;
        assert rows[k] == init[k];
      }
      if k :| 0 <= k < |rows| && rows[k].0 == month {
        if k < |init| {
          assert init[k] == rows[k];
        }
      }
    }
  }

  /** No month shows more resolved plus pending cases than it has. */
  lemma MonthlyBound(rows: seq<(string, CaseStatus)>, month: string)
    requires month in MonthlyStats(rows)
    ensures var m := MonthlyStats(rows)[month]; m.total >= m.resolved + m.pending
  {
    MonthlyStatsCount(rows, month);
    CountMonthBuckets(rows, month);
  }

  // The rows the trend folds: `findMany({ where: { createdAt: { gte: sixMonthsAgo } } })`
  // in the order the query returns the cases. The cutoff six months back comes from the
  // clock and `monthOf` is `toISOString().slice(0, 7)`; both are parameters.

  function TrendRows(cs: seq<Case>, cutoff: int, monthOf: int -> string): (rows: seq<(string, CaseStatus)>)
    ensures |rows| <= |cs|
  {
    if cs == [] then []
    else
      var c := cs[|cs| - 1];
      TrendRows(cs[..|cs| - 1], cutoff, monthOf) + (if c.createdAt >= cutoff then [(monthOf(c.createdAt), c.status)] else [])
  }

  /** The number of cases created from the cutoff on, in `month`, with a status in
      `sts`. */
  function CountWindow(cs: seq<Case>, cutoff: int, monthOf: int -> string, month: string, sts: set<CaseStatus>): nat {
    if cs == [] then 0
    else
      var c := cs[|cs| - 1];
      CountWindow(cs[..|cs| - 1], cutoff, monthOf, month, sts)
      + (if c.createdAt >= cutoff && monthOf(c.createdAt) == month && c.status in sts then 1 else 0)
  }

  lemma {:induction false} TrendCountsWindow(cs: seq<Case>, cutoff: int, monthOf: int -> string, month: string,
                                             sts: set<CaseStatus>)
    ensures CountMonth(TrendRows(cs, cutoff, monthOf), month, sts) == CountWindow(cs, cutoff, monthOf, month, sts)
  {
    if cs != [] {
      TrendCountsWindow(cs[..|cs| - 1], cutoff, monthOf, month, sts);
      TrendStep(cs, cutoff, monthOf, month, sts);
    }
  }

  lemma TrendStep(cs: seq<Case>, cutoff: int, monthOf: int -> string, month: string, sts: set<CaseStatus>)
    requires cs != []
    ensures var c := cs[|cs| - 1];
      CountMonth(TrendRows(cs, cutoff, monthOf), month, sts)
      == CountMonth(TrendRows(cs[..|cs| - 1], cutoff, monthOf), month, sts)
         + (if c.createdAt >= cutoff && monthOf(c.createdAt) == month && c.status in sts then 1 else 0)
  {
    var r0 := TrendRows(cs[..|cs| - 1], cutoff, monthOf);
    var rows := TrendRows(cs, cutoff, monthOf);
    if cs[|cs| - 1].createdAt >= cutoff {
      assert rows[..|rows| - 1] == r0;
    } else {
      assert rows == r0;
    }
  }

  /** The trend counts the cases created from the cutoff on and no other: for each
      month, all such cases of that month, the RESOLVED ones, and the PENDING and
      AWAITING_RESPONSE ones. A case older than the cutoff counts nowhere. */
  lemma MonthlyTrend(cs: seq<Case>, cutoff: int, monthOf: int -> string, month: string)
    ensures Get(MonthlyStats(TrendRows(cs, cutoff, monthOf)), month)
         == MonthCounts(CountWindow(cs, cutoff, monthOf, month, AllStatuses),
                        CountWindow(cs, cutoff, monthOf, month, {RESOLVED}),
                        CountWindow(cs, cutoff, monthOf, month, {PENDING, AWAITING_RESPONSE}))
  {
    MonthlyStatsCount(TrendRows(cs, cutoff, monthOf), month);
    TrendCountsWindow(cs, cutoff, monthOf, month, AllStatuses);
    TrendCountsWindow(cs, cutoff, monthOf, month, {RESOLVED});
    TrendCountsWindow(cs, cutoff, monthOf, month, {PENDING, AWAITING_RESPONSE});
  }

  // ----- the filtered case list -----

  /** `search`: the plaintiff's name, the issue or the opposite party's name contains
      it, ignoring case. */
  predicate SearchMatches(t: Tables, c: Case, search: string) {
    || (c.plaintiffId in t.users && ContainsIgnoringCase(t.users[c.plaintiffId].name, search))
    || ContainsIgnoringCase(c.issueDescription, search)
    || ContainsIgnoringCase(c.oppositeParty.name, search)
  }

  predicate AdminCaseMatches(t: Tables, c: Case, status: Option<CaseStatus>, caseType: Option<CaseType>,
                             search: Option<string>) {
    && (status.Some? ==> c.status == status.value)
    && (caseType.Some? ==> c.caseType == caseType.value)
    && (NonEmpty(search).Some? ==> SearchMatches(t, c, search.value))
  }

  /** The query of GET /admin/cases, each value as a string or absent. */
  datatype CaseQuery = CaseQuery(
    status: Option<string>, caseType: Option<string>, search: Option<string>,
    page: Option<string>, limit: Option<string>, sortBy: Option<string>, sortOrder: Option<string>)

  const NoCaseQuery := CaseQuery(None, None, None, None, None, None, None)

  /** The columns of a case that `orderBy: { [sortBy]: sortOrder }` can name: its scalar
      fields and the two party keys. */
  const CaseColumns: set<string> := {
    "id", "caseType", "issueDescription", "isCourtPending", "caseNumber", "firNumber",
    "courtPoliceStation", "status", "createdAt", "updatedAt", "plaintiffId", "defendantId"}

  /** `sortBy = 'createdAt'`, `sortOrder = 'desc'`: Prisma takes a column and a direction
      of asc or desc, and refuses any other. */
  predicate SortAccepted(q: CaseQuery) {
    Pick(q.sortBy, "createdAt") in CaseColumns && Pick(q.sortOrder, "desc") in {"asc", "desc"}
  }

  /** Prisma runs the query only when each enum filter names a value, the paging gives
      numbers and a skip that is not negative, and the sort names a column and a
      direction. */
  predicate CaseQueryAccepted(q: CaseQuery) {
    StatusFilter(q.status).Some? && CaseTypeFilter(q.caseType).Some? && Paging(q.page, q.limit, 20).Some?
    && SortAccepted(q)
  }

  datatype AdminListing = AdminListing(ids: set<CaseId>, page: int, limit: int, total: nat, pages: Option<int>)

  /** GET /admin/cases: the response's rows are a window, in `sortBy` order, of `ids`;
      a query Prisma refuses reaches the error handler. */
  function CasesSpec(t: Tables, q: CaseQuery): (out: Outcome<AdminListing>)
    ensures out.Failed? <==> !CaseQueryAccepted(q)
    ensures out.Failed? ==> out.error == InvalidArgument
    ensures out.Done? ==>
      && (forall id :: id in out.value.ids <==>
            id in t.cases && AdminCaseMatches(t, t.cases[id], StatusFilter(q.status).value, CaseTypeFilter(q.caseType).value, q.search))
      && out.value.total == |out.value.ids|
      && Paging(q.page, q.limit, 20) == Some(PageWindow(out.value.page, out.value.limit))
      && out.value.pages == PageCount(out.value.total, out.value.limit)
    ensures !out.Failed? ==> out.Done?
  {
    match (StatusFilter(q.status), CaseTypeFilter(q.caseType), Paging(q.page, q.limit, 20))
    case (Some(st), Some(ct), Some(w)) =>
      if !SortAccepted(q) then Failed(InvalidArgument)
      else
        var ids := set id | id in t.cases && AdminCaseMatches(t, t.cases[id], st, ct, q.search);
        Done(200, AdminListing(ids, w.page, w.limit, |ids|, PageCount(|ids|, w.limit)))
    case _ => Failed(InvalidArgument)
  }

  /** Searching is blind to case: a term finds the same cases as its lower-case form. */
  lemma SearchIgnoresCase(t: Tables, q: CaseQuery, search: string)
    requires search != []
    ensures CasesSpec(t, q.(search := Some(search))) == CasesSpec(t, q.(search := Some(Lower(search))))
  {
    LowerIdempotent(search);
    assert forall x :: ContainsIgnoringCase(x, search) == ContainsIgnoringCase(x, Lower(search));
    assert NonEmpty(Some(Lower(search))).Some?;
    assert forall c :: SearchMatches(t, c, search) == SearchMatches(t, c, Lower(search));
    if CaseQueryAccepted(q) {
      var st, ct := StatusFilter(q.status).value, CaseTypeFilter(q.caseType).value;
      assert (set id | id in t.cases && AdminCaseMatches(t, t.cases[id], st, ct, Some(search)))
          == (set id | id in t.cases && AdminCaseMatches(t, t.cases[id], st, ct, Some(Lower(search))));
    }
  }

  /** Without a query every case is listed, on page 1 of 20 rows. */
  lemma CasesUnfiltered(t: Tables)
    ensures var out := CasesSpec(t, NoCaseQuery);
      && out.Done? && out.value.ids == t.cases.Keys && out.value.total == |t.cases|
      && out.value.page == 1 && out.value.limit == 20
  {
    assert "createdAt" in CaseColumns;
  }

  /** A sort on a field that is not a column, a direction other than asc or desc, and
      page 0 are each refused, whatever else the query holds. */
  lemma CasesBadQueryRefused(t: Tables, q: CaseQuery, field: string, direction: string)
    requires field !in CaseColumns && direction != "asc" && direction != "desc"
    ensures CasesSpec(t, q.(sortBy := Some(field))) == Failed(InvalidArgument)
    ensures CasesSpec(t, q.(sortOrder := Some(direction))) == Failed(InvalidArgument)
    ensures CasesSpec(t, q.(page := Some(NatToString(0)), limit := None)) == Failed(InvalidArgument)
  {
    PageZeroRefused(0, 20);
  }

  // ----- panel formation -----

  /** One entry of `memberIds`: a user and the role the request gives them. */
  datatype MemberRequest = MemberRequest(userId: UserId, role: string)

  predicate HasRole(ms: seq<MemberRequest>, role: string) {
    exists k | 0 <= k < |ms| :: ms[k].role == role
  }

  /** `requiredRoles.every(role => roles.includes(role))` */
  predicate CoversRequiredRoles(ms: seq<MemberRequest>) {
    HasRole(ms, "LAWYER") && HasRole(ms, "RELIGIOUS_SCHOLAR") && HasRole(ms, "SOCIAL_EXPERT")
  }

  const CoverageMessage := "Panel must include at least one lawyer, one religious scholar, and one social expert"

  const PanelCreatedDescription := "Mediation panel has been created"

  /** Coverage asks for at least one of each role: adding members, with repeated or
      other roles, never loses it. */
  lemma CoverageIsMonotone(ms: seq<MemberRequest>, extra: seq<MemberRequest>)
    requires CoversRequiredRoles(ms)
    ensures CoversRequiredRoles(ms + extra) && CoversRequiredRoles(extra + ms)
  {
    var a := ms + extra;
    var b := extra + ms;
    forall role | HasRole(ms, role) ensures HasRole(a, role) && HasRole(b, role) {
      var k :| 0 <= k < |ms| && ms[k].role == role;
      assert a[k] == ms[k];
      assert b[|extra| + k] == ms[k];
    }
  }

  predicate RolesValid(ms: seq<MemberRequest>) {
    forall k :: 0 <= k < |ms| ==> RoleOf(ms[k].role).Some?
  }

  predicate MembersExist(t: Tables, ms: seq<MemberRequest>) {
    forall k :: 0 <= k < |ms| ==> ms[k].userId in t.users
  }

  predicate DistinctRequests(ms: seq<MemberRequest>) {
    forall i, j :: 0 <= i < j < |ms| ==> ms[i].userId != ms[j].userId
  }

  /** The `createMany` of the panel's members, in request order. */
  function PanelOf(ms: seq<MemberRequest>): (r: seq<PanelMember>)
    requires RolesValid(ms)
    ensures |r| == |ms|
    ensures forall k :: 0 <= k < |ms| ==> r[k].userId == ms[k].userId && RoleOf(ms[k].role) == Some(r[k].role)
  {
    seq(|ms|, k requires 0 <= k < |ms| => PanelMember(ms[k].userId, RoleOf(ms[k].role).value))
  }

  function Invitations(ms: seq<MemberRequest>, caseId: CaseId): (ns: seq<NotificationData>)
    ensures |ns| == |ms|
    ensures forall k :: 0 <= k < |ms| ==> ns[k].userId == ms[k].userId && ns[k].ntype == PANEL_INVITATION
                                          && ns[k].caseId == Some(caseId)
  {
    seq(|ms|, k requires 0 <= k < |ms| =>
      NotificationData(ms[k].userId, PANEL_INVITATION, "Panel Invitation",
                       "You have been invited to join a mediation panel", Some(caseId)))
  }

  /** POST /admin/cases/:id/panel. The coverage gate answers first; then the nested
      `panel.create` either commits the panel with all its members or fails as a whole:
      a role outside the enum is refused by Prisma before the query, a missing case or
      user breaks a foreign key, and a second panel for the case or a user listed twice
      breaks a unique key. Only then come the status, the timeline entry and the
      invitations. Neither the case's status nor a previous panel is consulted.
      The panel member's `role` column is taken to share the users' role enum, so USER
      and ADMIN pass as member roles; the client's type admits only the three expert
      roles, which the coverage gate asks for but does not restrict to. */
  function CreatePanelSpec(t: Tables, caseId: CaseId, ms: seq<MemberRequest>): (Tables, Outcome<seq<PanelMember>>) {
    if !CoversRequiredRoles(ms) then (t, Refused(400, CoverageMessage))
    else if !RolesValid(ms) then (t, Failed(InvalidArgument))
    else if caseId !in t.cases then (t, Failed(ForeignKeyViolation))
    else if caseId in t.panels then (t, Failed(UniqueViolation(["caseId"])))
    else if !MembersExist(t, ms) then (t, Failed(ForeignKeyViolation))
    else if !DistinctRequests(ms) then (t, Failed(UniqueViolation(["panelId", "userId"])))
    else
      var panel := PanelOf(ms);
      (t.(panels := t.panels[caseId := panel],
          cases := t.cases[caseId := t.cases[caseId].(status := PANEL_CREATED)],
          caseUpdates := t.caseUpdates + [CaseUpdate(caseId, PANEL_CREATED, PanelCreatedDescription)],
          notifications := WithRows(t.notifications, Invitations(ms, caseId))),
       Done(201, panel))
  }

  /** Without a lawyer, a religious scholar and a social expert the request is refused
      with 400 and nothing is written: no panel, no status, no timeline entry, no
      notification. */
  lemma PanelRoleGate(t: Tables, caseId: CaseId, ms: seq<MemberRequest>)
    ensures var (t', out) := CreatePanelSpec(t, caseId, ms);
      && (!CoversRequiredRoles(ms) <==> out == Refused(400, CoverageMessage))
      && (!out.Done? ==> t' == t)
  {
  }

  /** A panel is created for any case without one, whatever its status, once the roles
      are covered and the members are valid. */
  lemma PanelIgnoresCaseStatus(t: Tables, caseId: CaseId, ms: seq<MemberRequest>)
    requires CoversRequiredRoles(ms) && RolesValid(ms) && MembersExist(t, ms) && DistinctRequests(ms)
    requires caseId in t.cases && caseId !in t.panels
    ensures CreatePanelSpec(t, caseId, ms).1.Done?
  {
  }

  /** A created panel holds every submitted member in order; the case becomes
      PANEL_CREATED; exactly one timeline entry with that status is appended. Users,
      agreements and other cases are untouched. */
  lemma PanelCommitsAll(t: Tables, caseId: CaseId, ms: seq<MemberRequest>)
    ensures var (t', out) := CreatePanelSpec(t, caseId, ms);
      out.Done? ==>
        && |t'.panels[caseId]| == |ms|
        && (forall k :: 0 <= k < |ms| ==> t'.panels[caseId][k].userId == ms[k].userId)
        && t'.cases[caseId].status == PANEL_CREATED
        && (forall id :: id in t.cases && id != caseId ==> id in t'.cases && t'.cases[id] == t.cases[id])
        && t'.caseUpdates == t.caseUpdates + [CaseUpdate(caseId, PANEL_CREATED, PanelCreatedDescription)]
        && t'.users == t.users && t'.agreements == t.agreements
  {
  }

  /** `log'` is `log` followed by one unread PANEL_INVITATION for the case per member,
      in the members' order. */
  predicate InvitesInOrder(log: seq<Notification>, log': seq<Notification>, ms: seq<MemberRequest>, caseId: CaseId) {
    && |log'| == |log| + |ms|
    && log'[..|log|] == log
    && forall k :: 0 <= k < |ms| ==>
         && log'[|log| + k].userId == ms[k].userId && log'[|log| + k].ntype == PANEL_INVITATION
         && log'[|log| + k].caseId == Some(caseId) && !log'[|log| + k].isRead
  }

  lemma InvitationRows(log: seq<Notification>, ms: seq<MemberRequest>, caseId: CaseId)
    ensures InvitesInOrder(log, WithRows(log, Invitations(ms, caseId)), ms, caseId)
  {
    var ns := Invitations(ms, caseId);
    var r := WithRows(log, ns);
    WithRowsShape(log, ns);
    forall k | 0 <= k < |ms|
      ensures r[|log| + k].userId == ms[k].userId && r[|log| + k].ntype == PANEL_INVITATION
           && r[|log| + k].caseId == Some(caseId) && !r[|log| + k].isRead
    {
      assert r[|log| + k] == NewRow(|log| + k, ns[k]);
    }
  }

  /** Each member of a created panel, in order, gets one unread PANEL_INVITATION for the
      case, appended after the rows already there. */
  lemma PanelInvitesEachMember(t: Tables, caseId: CaseId, ms: seq<MemberRequest>)
    ensures CreatePanelSpec(t, caseId, ms).1.Done? ==>
      InvitesInOrder(t.notifications, CreatePanelSpec(t, caseId, ms).0.notifications, ms, caseId)
  {
    if CoversRequiredRoles(ms) && RolesValid(ms) && caseId in t.cases && caseId !in t.panels
       && MembersExist(t, ms) && DistinctRequests(ms) {
      InvitationRows(t.notifications, ms, caseId);
    }
  }

  lemma CreatePanelKeepsValid(t: Tables, caseId: CaseId, ms: seq<MemberRequest>)
    requires TablesValid(t)
    ensures TablesValid(CreatePanelSpec(t, caseId, ms).0)
  {
    var (t', out) := CreatePanelSpec(t, caseId, ms);
    if out.Done? {
      WithRowsKeepsPositions(t.notifications, Invitations(ms, caseId));
      var panel := PanelOf(ms);
      assert DistinctMembers(panel);
      assert forall a :: a in t'.agreements ==> t'.agreements[a].caseId in t'.cases;
    }
  }

  /** The writes once every check has passed: the panel with its members, the status,
      the timeline entry and the invitations, in that order. */
  method CommitPanel(db: Database, caseId: CaseId, ms: seq<MemberRequest>) returns (panel: seq<PanelMember>)
    requires RolesValid(ms) && caseId in db.cases && IdsArePositions(db.notifications)
    modifies db`panels, db`cases, db`caseUpdates, db`notifications
    ensures panel == PanelOf(ms)
    ensures db.Snapshot() == old(db.Snapshot()).(
      panels := old(db.panels)[caseId := panel],
      cases := old(db.cases)[caseId := old(db.cases)[caseId].(status := PANEL_CREATED)],
      caseUpdates := old(db.caseUpdates) + [CaseUpdate(caseId, PANEL_CREATED, PanelCreatedDescription)],
      notifications := WithRows(old(db.notifications), Invitations(ms, caseId)))
  {
    panel := PanelOf(ms);
    db.panels := db.panels[caseId := panel];
    db.cases := db.cases[caseId := db.cases[caseId].(status := PANEL_CREATED)];
    db.caseUpdates := db.caseUpdates + [CaseUpdate(caseId, PANEL_CREATED, PanelCreatedDescription)];
    CreateNotifications(db, Invitations(ms, caseId));
  }

  /** Creates the panel with its members, then sets the status, appends the timeline
      entry and inserts the invitations, in that order. */
  method CreatePanel(db: Database, caseId: CaseId, ms: seq<MemberRequest>) returns (out: Outcome<seq<PanelMember>>)
    requires db.Valid()
    modifies db`panels, db`cases, db`caseUpdates, db`notifications
    ensures db.Valid()
    ensures (db.Snapshot(), out) == CreatePanelSpec(old(db.Snapshot()), caseId, ms)
  {
    ghost var t := db.Snapshot();
    if !CoversRequiredRoles(ms) {
      return Refused(400, CoverageMessage);
    }
    if !RolesValid(ms) {
      return Failed(InvalidArgument);
    }
    if caseId !in db.cases {
      return Failed(ForeignKeyViolation);
    }
    if caseId in db.panels {
      return Failed(UniqueViolation(["caseId"]));
    }
    if !MembersExist(db.Snapshot(), ms) {
      return Failed(ForeignKeyViolation);
    }
    if !DistinctRequests(ms) {
      return Failed(UniqueViolation(["panelId", "userId"]));
    }
    var panel := CommitPanel(db, caseId, ms);
    CreatePanelKeepsValid(t, caseId, ms);
    return Done(201, panel);
  }

  // ----- the panel-member directory -----

  const ExpertRoles: set<Role> := {LAWYER, RELIGIOUS_SCHOLAR, SOCIAL_EXPERT}

  /** GET /admin/panel-members: verified experts; a `role` in the query replaces the
      expert condition rather than narrowing it. */
  function PanelMembersSpec(t: Tables, role: Option<string>): (out: Outcome<set<UserId>>)
    ensures out.Failed? <==> NonEmpty(role).Some? && RoleOf(role.value).None?
    ensures !out.Failed? ==> out.Done?
  {
    if NonEmpty(role).None? then Done(200, set u | u in t.users && t.users[u].isVerified && t.users[u].role in ExpertRoles)
    else match RoleOf(role.value)
      case None => Failed(InvalidArgument)
      case Some(r) => Done(200, set u | u in t.users && t.users[u].isVerified && t.users[u].role == r)
  }

  /** Every listed user is verified; without a role they are exactly the verified
      experts, and with a role exactly the verified users of that role, even one that is
      not an expert role. */
  lemma PanelMembersFilter(t: Tables, role: Option<string>)
    ensures var out := PanelMembersSpec(t, role);
      && (out.Done? ==> forall u :: u in out.value ==> u in t.users && t.users[u].isVerified)
      && (NonEmpty(role).None? ==> out.Done? && forall u :: u in out.value <==>
            u in t.users && t.users[u].isVerified && t.users[u].role in ExpertRoles)
      && (NonEmpty(role).Some? && RoleOf(role.value).Some? ==> out.Done? && forall u :: u in out.value <==>
            u in t.users && t.users[u].isVerified && Some(t.users[u].role) == RoleOf(role.value))
  {
  }

  // ----- user verification -----

  datatype VerifyResult = VerifyResult(message: string, id: UserId, name: string, email: string, isVerified: bool)

  /** The SYSTEM notice; the title and message follow the truthiness of the request's
      flag, so an absent flag reads as a revocation. */
  function VerifyNotice(id: UserId, isVerified: Option<bool>): NotificationData {
    if isVerified == Some(true) then
      NotificationData(id, SYSTEM, "Account Verified", "Your account has been verified. You can now register cases.", None)
    else
      NotificationData(id, SYSTEM, "Account Verification Revoked", "Your account verification has been revoked.", None)
  }

  function VerifySpec(t: Tables, id: UserId, isVerified: Option<bool>): (Tables, Outcome<VerifyResult>) {
    if id !in t.users then (t, Failed(RecordNotFound))
    else
      var user := t.users[id].(isVerified := Pick(isVerified, t.users[id].isVerified));
      var message := if isVerified == Some(true) then "User verified successfully" else "User unverified successfully";
      (t.(users := t.users[id := user], notifications := WithRows(t.notifications, [VerifyNotice(id, isVerified)])),
       Done(200, VerifyResult(message, id, user.name, user.email, user.isVerified)))
  }

  /** A given flag is stored on that user only, and exactly one unread SYSTEM notice goes
      to the user, its title telling which way the flag went. An unknown user is
      "record not found" and nothing is written. */
  lemma VerifySetsFlag(t: Tables, id: UserId, b: bool)
    ensures var (t', out) := VerifySpec(t, id, Some(b));
      && (id !in t.users <==> out == Failed(RecordNotFound))
      && (id !in t.users ==> t' == t)
      && (out.Done? ==>
            && t'.users == t.users[id := t.users[id].(isVerified := b)]
            && out.value.isVerified == b
            && |t'.notifications| == |t.notifications| + 1
            && (var n := t'.notifications[|t.notifications|];
                n.userId == id && n.ntype == SYSTEM && !n.isRead
                && n.title == (if b then "Account Verified" else "Account Verification Revoked"))
            && t' == t.(users := t'.users, notifications := t'.notifications))
  {
  }

  /** A request without the flag leaves it as it was and still tells the user that
      verification was revoked. */
  lemma VerifyWithoutFlag(t: Tables, id: UserId)
    requires id in t.users
    ensures var (t', out) := VerifySpec(t, id, None);
      && t'.users[id] == t.users[id]
      && t'.notifications[|t.notifications|].title == "Account Verification Revoked"
  {
  }

  lemma VerifyKeepsValid(t: Tables, id: UserId, isVerified: Option<bool>)
    requires TablesValid(t)
    ensures TablesValid(VerifySpec(t, id, isVerified).0)
  {
    WithRowsKeepsPositions(t.notifications, [VerifyNotice(id, isVerified)]);
  }

  /** Updates the flag, then creates the notice. */
  method VerifyUser(db: Database, id: UserId, isVerified: Option<bool>) returns (out: Outcome<VerifyResult>)
    requires db.Valid()
    modifies db`users, db`notifications
    ensures db.Valid()
    ensures (db.Snapshot(), out) == VerifySpec(old(db.Snapshot()), id, isVerified)
  {
    ghost var t := db.Snapshot();
    if id !in db.users {
      return Failed(RecordNotFound);
    }
    var user := db.users[id].(isVerified := Pick(isVerified, db.users[id].isVerified));
    db.users := db.users[id := user];
    CreateNotifications(db, [VerifyNotice(id, isVerified)]);
    assert db.Snapshot() == VerifySpec(t, id, isVerified).0;
    VerifyKeepsValid(t, id, isVerified);
    var message := if isVerified == Some(true) then "User verified successfully" else "User unverified successfully";
    return Done(200, VerifyResult(message, id, user.name, user.email, user.isVerified));
  }
}
