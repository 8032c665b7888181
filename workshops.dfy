/** The workshop routes: the public listing and detail, registration behind the
    active / capacity / duplicate gate, and the admin-only create, update (with the
    cancellation notice to registrants) and attendance handlers.

    Timestamps are integers; `new Date()` is the `now` parameter. The schema's default
    for a new workshop is taken to be active. */
module Workshops {
  import opened Common
  import opened Store
  import opened Notify

  // ----- listing -----

  /** The `where` of the listing: active and, when `upcoming` is `'true'` (also its
      value when the query leaves it out), scheduled at or after now. */
  predicate Listed(w: Workshop, upcoming: Option<string>, now: int) {
    var u := if upcoming.Some? then upcoming.value else "true";
    w.isActive && (u == "true" ==> w.scheduledAt >= now)
  }

  function ListedIds(ws: map<WorkshopId, Workshop>, upcoming: Option<string>, now: int): (r: set<WorkshopId>)
    ensures forall id :: id in r <==> id in ws && Listed(ws[id], upcoming, now)
  {
    set id | id in ws && Listed(ws[id], upcoming, now)
  }

  predicate Ascending(ws: map<WorkshopId, Workshop>, ids: seq<WorkshopId>)
    requires forall k :: 0 <= k < |ids| ==> ids[k] in ws
  {
    forall i, j :: 0 <= i < j < |ids| ==> ws[ids[i]].scheduledAt <= ws[ids[j]].scheduledAt
  }

  predicate Distinct(ids: seq<WorkshopId>) {
    forall i, j :: 0 <= i < j < |ids| ==> ids[i] != ids[j]
  }

  /** `x` put into a list before the first later workshop. */
  function InsertBySchedule(ws: map<WorkshopId, Workshop>, ids: seq<WorkshopId>, x: WorkshopId): (r: seq<WorkshopId>)
    requires x in ws && forall k :: 0 <= k < |ids| ==> ids[k] in ws
    ensures |r| == |ids| + 1
    ensures forall k :: 0 <= k < |r| ==> r[k] in ws
    ensures forall y :: y in r <==> y == x || y in ids
    decreases |ids|
  {
    if ids == [] || ws[x].scheduledAt <= ws[ids[0]].scheduledAt then [x] + ids
    else [ids[0]] + InsertBySchedule(ws, ids[1..], x)
  }

  /** Inserting into an ascending list keeps it ascending. */
  lemma {:induction false} InsertKeepsAscending(ws: map<WorkshopId, Workshop>, ids: seq<WorkshopId>, x: WorkshopId)
    requires x in ws && forall k :: 0 <= k < |ids| ==> ids[k] in ws
    requires Ascending(ws, ids)
    ensures Ascending(ws, InsertBySchedule(ws, ids, x))
    decreases |ids|
  {
    var r := InsertBySchedule(ws, ids, x);
    if ids == [] || ws[x].scheduledAt <= ws[ids[0]].scheduledAt {
      assert forall k :: 1 <= k < |r| ==> r[k] == ids[k - 1];
    } else {
      var tail := ids[1..];
      var rest := InsertBySchedule(ws, tail, x);
      InsertKeepsAscending(ws, tail, x);
      assert forall k :: 1 <= k < |r| ==> r[k] == rest[k - 1];
      forall k | 0 <= k < |rest| ensures ws[ids[0]].scheduledAt <= ws[rest[k]].scheduledAt {
        if rest[k] != x {
          assert rest[k] in tail;
          var m :| 0 <= m < |tail| && tail[m] == rest[k];
          assert tail[m] == ids[m + 1];
        }
      }
    }
  }

  /** Inserting a new id into a list without repeats leaves none. */
  lemma {:induction false} InsertKeepsDistinct(ws: map<WorkshopId, Workshop>, ids: seq<WorkshopId>, x: WorkshopId)
    requires x in ws && forall k :: 0 <= k < |ids| ==> ids[k] in ws
    requires Distinct(ids) && x !in ids
    ensures Distinct(InsertBySchedule(ws, ids, x))
    decreases |ids|
  {
    var r := InsertBySchedule(ws, ids, x);
    if ids == [] || ws[x].scheduledAt <= ws[ids[0]].scheduledAt {
      assert forall k :: 1 <= k < |r| ==> r[k] == ids[k - 1];
    } else {
      var tail := ids[1..];
      var rest := InsertBySchedule(ws, tail, x);
      assert forall k :: 0 <= k < |tail| ==> tail[k] == ids[k + 1];
      InsertKeepsDistinct(ws, tail, x);
      assert forall k :: 1 <= k < |r| ==> r[k] == rest[k - 1];
      assert ids[0] !in rest;
    }
  }

  /** `orderBy: { scheduledAt: 'asc' }` over a set of workshops: each exactly once, in
      ascending schedule. Workshops at the same instant come in no particular order. */
  ghost function ScheduleOrder(ws: map<WorkshopId, Workshop>, ids: set<WorkshopId>): (r: seq<WorkshopId>)
    requires ids <= ws.Keys
    ensures forall k :: 0 <= k < |r| ==> r[k] in ws
    ensures forall y :: y in r <==> y in ids
    ensures |r| == |ids| && Distinct(r)
    ensures Ascending(ws, r)
    decreases |ids|
  {
    if ids == {} then []
    else
      var x :| x in ids;
      var rest := ScheduleOrder(ws, ids - {x});
      InsertKeepsAscending(ws, rest, x);
      InsertKeepsDistinct(ws, rest, x);
      InsertBySchedule(ws, rest, x)
  }

  datatype WorkshopListing = WorkshopListing(
    workshops: seq<WorkshopId>, page: int, limit: int, total: nat, pages: Option<int>)

  /** GET /workshops, with `page = 1` and `limit = 10`: the listing before `skip`/`take`
      cut it to one page, with the page header as the response writes it. A NaN page or
      size, or a negative skip, makes Prisma refuse the query. */
  ghost function ListSpec(t: Tables, upcoming: Option<string>, page: Option<string>, limit: Option<string>,
                          now: int): Outcome<WorkshopListing> {
    match Paging(page, limit, 10)
    case None => Failed(InvalidArgument)
    case Some(w) =>
      var ids := ListedIds(t.workshops, upcoming, now);
      Done(200, WorkshopListing(ScheduleOrder(t.workshops, ids), w.page, w.limit, |ids|, PageCount(|ids|, w.limit)))
  }

  /** With the default `upcoming`, exactly the active workshops from now on are listed,
      each once, earliest first, and `total` is their number; only a query Prisma
      refuses fails. */
  lemma ListUpcoming(t: Tables, page: Option<string>, limit: Option<string>, now: int)
    ensures var l := ListSpec(t, None, page, limit, now);
      && (l.Failed? <==> Paging(page, limit, 10).None?)
      && (!l.Failed? ==> l.Done?)
    ensures var l := ListSpec(t, None, page, limit, now);
      l.Done? ==>
      && (forall id :: id in l.value.workshops <==> id in t.workshops && t.workshops[id].isActive && t.workshops[id].scheduledAt >= now)
      && Distinct(l.value.workshops) && Ascending(t.workshops, l.value.workshops)
      && l.value.total == |l.value.workshops|
      && Paging(page, limit, 10) == Some(PageWindow(l.value.page, l.value.limit))
  {
  }

  /** Any other `upcoming` value drops the schedule condition but never the active one. */
  lemma ListOnlyActive(t: Tables, upcoming: string, page: Option<string>, limit: Option<string>, now: int)
    requires upcoming != "true"
    ensures var l := ListSpec(t, Some(upcoming), page, limit, now);
      l.Done? ==> forall id :: id in l.value.workshops <==> id in t.workshops && t.workshops[id].isActive
  {
  }

  // ----- detail -----

  datatype WorkshopDetail = WorkshopDetail(workshop: Workshop, registrations: seq<Registration>, count: nat)

  /** A missing or inactive workshop is "not found". */
  function GetSpec(t: Tables, id: WorkshopId): (out: Outcome<WorkshopDetail>)
    ensures out.Refused? <==> id !in t.workshops || !t.workshops[id].isActive
    ensures out.Refused? ==> out == Refused(404, "Workshop not found")
    ensures out.Done? ==> out.value.workshop == t.workshops[id] && out.value.count == |out.value.registrations|
    ensures !out.Failed?
  {
    if id !in t.workshops || !t.workshops[id].isActive then Refused(404, "Workshop not found")
    else
      var regs := RegistrationsOf(t.registrations, id);
      Done(200, WorkshopDetail(t.workshops[id], regs, |regs|))
  }

  // ----- registration -----

  /** `_count.registrations` */
  function RegistrationCount(regs: seq<Registration>, id: WorkshopId): nat {
    |RegistrationsOf(regs, id)|
  }

  lemma {:induction false} RegistrationsOfAppend(regs: seq<Registration>, r: Registration, id: WorkshopId)
    ensures RegistrationsOf(regs + [r], id) == RegistrationsOf(regs, id) + (if r.workshopId == id then [r] else [])
    decreases |regs|
  {
    if regs == [] {
      assert [] + [r] == [r];
    } else {
      var s := regs + [r];
      var head := if regs[0].workshopId == id then [regs[0]] else [];
      var tail := if r.workshopId == id then [r] else [];
      assert s[0] == regs[0];
      assert s[1..] == regs[1..] + [r];
      RegistrationsOfAppend(regs[1..], r, id);
      calc {
        RegistrationsOf(s, id);
        head + RegistrationsOf(regs[1..] + [r], id);
        head + (RegistrationsOf(regs[1..], id) + tail);
        (head + RegistrationsOf(regs[1..], id)) + tail;
        RegistrationsOf(regs, id) + tail;
      }
    }
  }

  /** The three refusals in the order the handler tests them, then the insert. */
  function RegisterSpec(t: Tables, caller: Principal, id: WorkshopId): (Tables, Outcome<Registration>) {
    if id !in t.workshops || !t.workshops[id].isActive then (t, Refused(404, "Workshop not found"))
    else if RegistrationCount(t.registrations, id) >= t.workshops[id].maxParticipants then
      (t, Refused(400, "Workshop is full"))
    else if Registered(t.registrations, id, caller.id) then
      (t, Refused(400, "Already registered for this workshop"))
    else
      var r := Registration(caller.id, id, false);
      (t.(registrations := t.registrations + [r]), Done(201, r))
  }

  /** Registration succeeds exactly for an active workshop with a free seat that the
      caller has not registered for yet; then it adds exactly one registration, for the
      caller and this workshop, and changes nothing else. Otherwise nothing changes. */
  lemma RegisterGate(t: Tables, caller: Principal, id: WorkshopId)
    ensures var (t', out) := RegisterSpec(t, caller, id);
      && (out.Done? <==> id in t.workshops && t.workshops[id].isActive
                         && RegistrationCount(t.registrations, id) < t.workshops[id].maxParticipants
                         && !Registered(t.registrations, id, caller.id))
      && (out.Done? ==> out.code == 201 && t' == t.(registrations := t.registrations + [Registration(caller.id, id, false)]))
      && (!out.Done? ==> t' == t && out.Refused?)
  {
  }

  /** A successful registration raises the workshop's count by one and never past its
      maximum. */
  lemma RegisterRespectsCapacity(t: Tables, caller: Principal, id: WorkshopId)
    ensures var (t', out) := RegisterSpec(t, caller, id);
      out.Done? ==> && RegistrationCount(t'.registrations, id) == RegistrationCount(t.registrations, id) + 1
                    && RegistrationCount(t'.registrations, id) <= t'.workshops[id].maxParticipants
  {
    var (t', out) := RegisterSpec(t, caller, id);
    if out.Done? {
      RegistrationsOfAppend(t.registrations, Registration(caller.id, id, false), id);
    }
  }

  /** At most one registration per (user, workshop), before and after. */
  lemma RegisterKeepsValid(t: Tables, caller: Principal, id: WorkshopId)
    requires TablesValid(t)
    ensures TablesValid(RegisterSpec(t, caller, id).0)
  {
    var (t', out) := RegisterSpec(t, caller, id);
    if out.Done? {
      var regs := t'.registrations;
      forall i, j | 0 <= i < j < |regs| && regs[i].workshopId == regs[j].workshopId
        ensures regs[i].userId != regs[j].userId
      {
        if j == |t.registrations| {
          assert regs[i] == t.registrations[i];
        }
      }
    }
  }

  /** A second request by the same user for the same workshop is refused. */
  lemma RegisterTwiceRefused(t: Tables, caller: Principal, id: WorkshopId)
    ensures var (t', out) := RegisterSpec(t, caller, id);
      out.Done? ==> RegisterSpec(t', caller, id) == (t', Refused(400, "Already registered for this workshop"))
                    || RegisterSpec(t', caller, id) == (t', Refused(400, "Workshop is full"))
  {
    var (t', out) := RegisterSpec(t, caller, id);
    if out.Done? {
      var k := |t.registrations|;
      assert t'.registrations[k].workshopId == id && t'.registrations[k].userId == caller.id;
    }
  }

  method Register(db: Database, caller: Principal, id: WorkshopId) returns (out: Outcome<Registration>)
    requires db.Valid()
    modifies db`registrations
    ensures db.Valid()
    ensures (db.Snapshot(), out) == RegisterSpec(old(db.Snapshot()), caller, id)
  {
    RegisterKeepsValid(db.Snapshot(), caller, id);
    if id !in db.workshops || !db.workshops[id].isActive {
      return Refused(404, "Workshop not found");
    }
    var workshop := db.workshops[id];
    if RegistrationCount(db.registrations, id) >= workshop.maxParticipants {
      return Refused(400, "Workshop is full");
    }
    if Registered(db.registrations, id, caller.id) {
      return Refused(400, "Already registered for this workshop");
    }
    var registration := Registration(caller.id, id, false);
    db.registrations := db.registrations + [registration];
    return Done(201, registration);
  }

  // ----- admin: create -----

  datatype WorkshopForm = WorkshopForm(
    title: string, description: string, instructor: string, maxParticipants: int,
    scheduledAt: int, duration: int, meetingUrl: Option<string>)

  function NewWorkshop(f: WorkshopForm): Workshop {
    Workshop(f.title, f.description, f.instructor, f.maxParticipants, f.scheduledAt, f.duration, f.meetingUrl, true)
  }

  function CreateSpec(t: Tables, caller: Principal, newId: WorkshopId, f: WorkshopForm): (Tables, Outcome<Workshop>)
    requires newId !in t.workshops
  {
    if caller.role != ADMIN then (t, Refused(403, "Access denied"))
    else (t.(workshops := t.workshops[newId := NewWorkshop(f)]), Done(201, NewWorkshop(f)))
  }

  /** Only ADMIN creates; the new workshop carries every submitted field and is active,
      and no other workshop or table changes. */
  lemma CreateAdminOnly(t: Tables, caller: Principal, newId: WorkshopId, f: WorkshopForm)
    requires newId !in t.workshops
    ensures var (t', out) := CreateSpec(t, caller, newId, f);
      && (caller.role != ADMIN <==> out == Refused(403, "Access denied"))
      && (caller.role != ADMIN ==> t' == t)
      && (caller.role == ADMIN ==>
            && out.Done? && out.code == 201
            && t' == t.(workshops := t.workshops[newId := out.value])
            && out.value.title == f.title && out.value.description == f.description
            && out.value.instructor == f.instructor && out.value.maxParticipants == f.maxParticipants
            && out.value.scheduledAt == f.scheduledAt && out.value.duration == f.duration
            && out.value.meetingUrl == f.meetingUrl && out.value.isActive)
  {
  }

  method Create(db: Database, caller: Principal, newId: WorkshopId, f: WorkshopForm) returns (out: Outcome<Workshop>)
    requires db.Valid() && newId !in db.workshops
    modifies db`workshops
    ensures db.Valid()
    ensures (db.Snapshot(), out) == CreateSpec(old(db.Snapshot()), caller, newId, f)
  {
    if caller.role != ADMIN {
      return Refused(403, "Access denied");
    }
    var workshop := NewWorkshop(f);
    db.workshops := db.workshops[newId := workshop];
    return Done(201, workshop);
  }

  // ----- admin: update and the cancellation notice -----

  /** The update body: an absent field leaves the column as it is. A falsy `scheduledAt`
      (absent, or the timestamp 0) is also left out of the update. */
  datatype WorkshopUpdate = WorkshopUpdate(
    title: Option<string>, description: Option<string>, instructor: Option<string>,
    maxParticipants: Option<int>, scheduledAt: Option<int>, duration: Option<int>,
    meetingUrl: Option<string>, isActive: Option<bool>)

  function ApplyUpdate(w: Workshop, u: WorkshopUpdate): (r: Workshop)
    ensures u.isActive.None? ==> r.isActive == w.isActive
    ensures u.title.None? ==> r.title == w.title
    ensures u.scheduledAt.None? || u.scheduledAt == Some(0) ==> r.scheduledAt == w.scheduledAt
  {
    Workshop(Pick(u.title, w.title), Pick(u.description, w.description), Pick(u.instructor, w.instructor),
             Pick(u.maxParticipants, w.maxParticipants),
             if u.scheduledAt.Some? && u.scheduledAt.value != 0 then u.scheduledAt.value else w.scheduledAt,
             Pick(u.duration, w.duration),
             if u.meetingUrl.Some? then u.meetingUrl else w.meetingUrl,
             Pick(u.isActive, w.isActive))
  }

  function CancelledMessage(title: string): string {
    "The workshop \"" + title + "\" has been cancelled. We apologize for any inconvenience."
  }

  /** A template literal renders an absent value as the text `undefined`. */
  function TemplateText(s: Option<string>): string {
    if s.Some? then s.value else "undefined"
  }

  /** The handler as written: the notice fires when the stored workshop was active and
      the request's `isActive` is falsy, which includes leaving it out, and the message
      names the request's `title`, whatever the stored title is. */
  function UpdateSpecAsWritten(t: Tables, caller: Principal, id: WorkshopId, u: WorkshopUpdate): (Tables, Outcome<Workshop>) {
    if caller.role != ADMIN then (t, Refused(403, "Access denied"))
    else if id !in t.workshops then (t, Failed(RecordNotFound))
    else
      var w := ApplyUpdate(t.workshops[id], u);
      var t1 := t.(workshops := t.workshops[id := w]);
      if t.workshops[id].isActive && u.isActive != Some(true) then
        var ns := WorkshopRows(t.registrations, id, WORKSHOP_CANCELLED, "Workshop Cancelled", CancelledMessage(TemplateText(u.title)));
        (t1.(notifications := WithRows(t.notifications, ns)), Done(200, w))
      else (t1, Done(200, w))
  }

  /** An edit of an active workshop that gives neither `isActive` nor `title` (here, a
      new description only) keeps it active, yet every registrant is told it was
      cancelled, under the name "undefined". */
  lemma OmittedIsActiveCancels(t: Tables, admin: Principal, id: WorkshopId, u: UserId)
    requires admin.role == ADMIN && id in t.workshops && t.workshops[id].isActive
    requires Registered(t.registrations, id, u)
    ensures var edit := WorkshopUpdate(None, Some("new description"), None, None, None, None, None, None);
      var (t', out) := UpdateSpecAsWritten(t, admin, id, edit);
      && out.Done? && out.value.isActive
      && |t'.notifications| > |t.notifications|
      && t'.notifications[|t.notifications|].ntype == WORKSHOP_CANCELLED
      && t'.notifications[|t.notifications|].message == CancelledMessage("undefined")
  {
    var ns := WorkshopRows(t.registrations, id, WORKSHOP_CANCELLED, "Workshop Cancelled", CancelledMessage("undefined"));
    WorkshopRowsReachRegistrants(t.registrations, id, WORKSHOP_CANCELLED, "Workshop Cancelled", CancelledMessage("undefined"), u);
    assert |ns| > 0;
  }

  /** The handler as intended: the notice fires exactly when this update takes an active
      workshop to inactive, and names the workshop by its title after the update. */
  function UpdateSpec(t: Tables, caller: Principal, id: WorkshopId, u: WorkshopUpdate): (Tables, Outcome<Workshop>) {
    if caller.role != ADMIN then (t, Refused(403, "Access denied"))
    else if id !in t.workshops then (t, Failed(RecordNotFound))
    else
      var w := ApplyUpdate(t.workshops[id], u);
      var t1 := t.(workshops := t.workshops[id := w]);
      if t.workshops[id].isActive && !w.isActive then
        var ns := WorkshopRows(t.registrations, id, WORKSHOP_CANCELLED, "Workshop Cancelled", CancelledMessage(w.title));
        (t1.(notifications := WithRows(t.notifications, ns)), Done(200, w))
      else (t1, Done(200, w))
  }

  /** Registrants hear of a cancellation exactly when the workshop goes from active to
      inactive, each once, by the workshop's own title; a non-admin changes nothing. */
  lemma NoticeOnlyOnCancellation(t: Tables, caller: Principal, id: WorkshopId, u: WorkshopUpdate)
    requires caller.role == ADMIN && id in t.workshops
    ensures var (t', out) := UpdateSpec(t, caller, id, u);
      var cancelled := t.workshops[id].isActive && u.isActive == Some(false);
      && out == Done(200, ApplyUpdate(t.workshops[id], u))
      && t'.workshops == t.workshops[id := out.value]
      && (cancelled <==> t.workshops[id].isActive && !t'.workshops[id].isActive)
      && (cancelled ==> t'.notifications == WithRows(t.notifications,
            WorkshopRows(t.registrations, id, WORKSHOP_CANCELLED, "Workshop Cancelled", CancelledMessage(out.value.title))))
      && (!cancelled ==> t'.notifications == t.notifications)
      && t' == t.(workshops := t'.workshops, notifications := t'.notifications)
  {
    var before := t.workshops[id];
    var w := ApplyUpdate(before, u);
    assert w.isActive == Pick(u.isActive, before.isActive);
    var t1 := t.(workshops := t.workshops[id := w]);
    if before.isActive && !w.isActive {
      var ns := WorkshopRows(t.registrations, id, WORKSHOP_CANCELLED, "Workshop Cancelled", CancelledMessage(w.title));
      assert UpdateSpec(t, caller, id, u) == (t1.(notifications := WithRows(t.notifications, ns)), Done(200, w));
    } else {
      assert UpdateSpec(t, caller, id, u) == (t1, Done(200, w));
    }
  }

  /** A non-admin is refused and a missing workshop is Prisma's "record not found";
      neither writes anything. */
  lemma UpdateRefusals(t: Tables, caller: Principal, id: WorkshopId, u: WorkshopUpdate)
    ensures var (t', out) := UpdateSpec(t, caller, id, u);
      && (caller.role != ADMIN <==> out == Refused(403, "Access denied"))
      && (caller.role == ADMIN && id !in t.workshops <==> out == Failed(RecordNotFound))
      && (!out.Done? ==> t' == t)
  {
  }

  /** Whenever the request names `isActive` and `title`, the written and the intended
      handlers agree. */
  lemma AsWrittenAgreesWhenExplicit(t: Tables, caller: Principal, id: WorkshopId, u: WorkshopUpdate)
    requires u.isActive.Some? && u.title.Some?
    ensures UpdateSpecAsWritten(t, caller, id, u) == UpdateSpec(t, caller, id, u)
  {
  }

  lemma UpdateKeepsValid(t: Tables, caller: Principal, id: WorkshopId, u: WorkshopUpdate)
    requires TablesValid(t)
    ensures TablesValid(UpdateSpec(t, caller, id, u).0)
  {
    if caller.role == ADMIN && id in t.workshops {
      var w := ApplyUpdate(t.workshops[id], u);
      var ns := WorkshopRows(t.registrations, id, WORKSHOP_CANCELLED, "Workshop Cancelled", CancelledMessage(w.title));
      WithRowsKeepsPositions(t.notifications, ns);
      NoticeOnlyOnCancellation(t, caller, id, u);
      ValidWhenKeysKept(t, UpdateSpec(t, caller, id, u).0);
    }
  }

  /** Reads the stored workshop, updates it, then notifies the registrants when it has
      just been cancelled. */
  method Update(db: Database, caller: Principal, id: WorkshopId, u: WorkshopUpdate) returns (out: Outcome<Workshop>)
    requires db.Valid()
    modifies db`workshops, db`notifications
    ensures db.Valid()
    ensures (db.Snapshot(), out) == UpdateSpec(old(db.Snapshot()), caller, id, u)
  {
    UpdateKeepsValid(db.Snapshot(), caller, id, u);
    if caller.role != ADMIN {
      return Refused(403, "Access denied");
    }
    if id !in db.workshops {
      return Failed(RecordNotFound);
    }
    var existing := db.workshops[id];
    var workshop := ApplyUpdate(existing, u);
    db.workshops := db.workshops[id := workshop];
    if existing.isActive && !workshop.isActive {
      NotifyWorkshopRegistrants(db, id, WORKSHOP_CANCELLED, "Workshop Cancelled", CancelledMessage(workshop.title));
    }
    return Done(200, workshop);
  }

  // ----- admin: attendance -----

  /** The position of the (user, workshop) registration, if there is one. */
  function FindRegistration(regs: seq<Registration>, workshopId: WorkshopId, userId: UserId): (r: Option<nat>)
    ensures r.Some? ==> r.value < |regs| && regs[r.value].workshopId == workshopId && regs[r.value].userId == userId
    ensures r.None? <==> !Registered(regs, workshopId, userId)
    decreases |regs|
  {
    if regs == [] then None
    else if regs[0].workshopId == workshopId && regs[0].userId == userId then Some(0)
    else
      var rest := FindRegistration(regs[1..], workshopId, userId);
      assert Registered(regs, workshopId, userId) ==> Registered(regs[1..], workshopId, userId) by {
        if Registered(regs, workshopId, userId) {
          var k :| 0 <= k < |regs| && regs[k].workshopId == workshopId && regs[k].userId == userId;
          assert regs[1..][k - 1] == regs[k];
        }
      }
      if rest.None? then None
      else
        assert regs[rest.value + 1] == regs[1..][rest.value];
        Some(rest.value + 1)
  }

  /** `update` on the (user, workshop) key: an absent `attended` keeps the flag. */
  function AttendanceSpec(t: Tables, caller: Principal, workshopId: WorkshopId, userId: UserId,
                          attended: Option<bool>): (Tables, Outcome<Registration>)
  {
    if caller.role != ADMIN then (t, Refused(403, "Access denied"))
    else match FindRegistration(t.registrations, workshopId, userId)
      case None => (t, Failed(RecordNotFound))
      case Some(k) =>
        var r := t.registrations[k].(attended := Pick(attended, t.registrations[k].attended));
        (t.(registrations := t.registrations[k := r]), Done(200, r))
  }

  /** Only ADMIN marks attendance, and an ADMIN always can on an existing registration;
      only that registration's flag changes, to the given value, and an omitted value
      changes nothing. */
  lemma AttendanceChangesOneFlag(t: Tables, caller: Principal, workshopId: WorkshopId, userId: UserId,
                                 attended: Option<bool>)
    ensures var (t', out) := AttendanceSpec(t, caller, workshopId, userId, attended);
      && (caller.role != ADMIN ==> out == Refused(403, "Access denied") && t' == t)
      && (caller.role == ADMIN && !Registered(t.registrations, workshopId, userId) ==> out == Failed(RecordNotFound) && t' == t)
      && (caller.role == ADMIN && Registered(t.registrations, workshopId, userId) ==> out.Done? && out.code == 200)
      && (attended.None? ==> t' == t)
      && (out.Done? ==>
            && out.value.userId == userId && out.value.workshopId == workshopId
            && (attended.Some? ==> out.value.attended == attended.value)
            && var k := FindRegistration(t.registrations, workshopId, userId).value;
            && t' == t.(registrations := t.registrations[k := out.value])
            && out.value == t.registrations[k].(attended := Pick(attended, t.registrations[k].attended))
            && forall j :: 0 <= j < |t.registrations| && j != k ==> t'.registrations[j] == t.registrations[j])
  {
  }

  lemma AttendanceKeepsValid(t: Tables, caller: Principal, workshopId: WorkshopId, userId: UserId,
                             attended: Option<bool>)
    requires TablesValid(t)
    ensures TablesValid(AttendanceSpec(t, caller, workshopId, userId, attended).0)
  {
    var k := FindRegistration(t.registrations, workshopId, userId);
    if caller.role == ADMIN && k.Some? {
      var r := t.registrations[k.value].(attended := Pick(attended, t.registrations[k.value].attended));
      RegistrationsUniqueAfterSet(t.registrations, k.value, r);
      assert AttendanceSpec(t, caller, workshopId, userId, attended).0 == t.(registrations := t.registrations[k.value := r]);
    }
  }

  method Attendance(db: Database, caller: Principal, workshopId: WorkshopId, userId: UserId,
                    attended: Option<bool>) returns (out: Outcome<Registration>)
    requires db.Valid()
    modifies db`registrations
    ensures db.Valid()
    ensures (db.Snapshot(), out) == AttendanceSpec(old(db.Snapshot()), caller, workshopId, userId, attended)
  {
    AttendanceKeepsValid(db.Snapshot(), caller, workshopId, userId, attended);
    if caller.role != ADMIN {
      return Refused(403, "Access denied");
    }
    var k := FindRegistration(db.registrations, workshopId, userId);
    if k.None? {
      return Failed(RecordNotFound);
    }
    var r := db.registrations[k.value];
    var registration := r.(attended := Pick(attended, r.attended));
    db.registrations := db.registrations[k.value := registration];
    return Done(200, registration);
  }
}
