/** The notification helpers the routes call after a state change. Each computes a
    recipient list and inserts one unread row per recipient. A helper never fails
    towards its caller: the original catches and logs every error, and the model's
    inserts cannot fail, so each helper is a method without an error result. */
module Notify {
  import opened Common
  import opened Store

  // ----- createNotification -----

  /** Exactly one row, with the given recipient, type, title, message and case. */
  method CreateNotification(db: Database, userId: UserId, ntype: NotificationType, title: string,
                            message: string, caseId: Option<CaseId>)
    requires IdsArePositions(db.notifications)
    modifies db`notifications
    ensures IdsArePositions(db.notifications)
    ensures db.notifications == old(db.notifications) + [Notification(|old(db.notifications)|, userId, ntype, title, message, caseId, false)]
  {
    CreateNotifications(db, [NotificationData(userId, ntype, title, message, caseId)]);
  }

  // ----- notifyWorkshopRegistrants -----

  /** The registrations of one workshop, in table order. */
  function RegistrationsOf(regs: seq<Registration>, workshopId: WorkshopId): (r: seq<Registration>)
    ensures |r| <= |regs|
    ensures forall k :: 0 <= k < |r| ==> r[k].workshopId == workshopId && r[k] in regs
    ensures forall k :: 0 <= k < |regs| && regs[k].workshopId == workshopId ==> regs[k] in r
  {
    if regs == [] then []
    else (if regs[0].workshopId == workshopId then [regs[0]] else []) + RegistrationsOf(regs[1..], workshopId)
  }

  /** `workshop.registrations.map(...)`: one row per registration, to its registrant. */
  function WorkshopRows(regs: seq<Registration>, workshopId: WorkshopId, ntype: NotificationType,
                        title: string, message: string): seq<NotificationData>
  {
    var rs := RegistrationsOf(regs, workshopId);
    seq(|rs|, k requires 0 <= k < |rs| => NotificationData(rs[k].userId, ntype, title, message, None))
  }

  predicate Registered(regs: seq<Registration>, workshopId: WorkshopId, u: UserId) {
    exists k | 0 <= k < |regs| :: regs[k].workshopId == workshopId && regs[k].userId == u
  }

  /** A user receives a row exactly when they are registered for the workshop. */
  lemma WorkshopRowsReachRegistrants(regs: seq<Registration>, workshopId: WorkshopId,
                                     ntype: NotificationType, title: string, message: string, u: UserId)
    ensures var ns := WorkshopRows(regs, workshopId, ntype, title, message);
      (exists k :: 0 <= k < |ns| && ns[k].userId == u) <==> Registered(regs, workshopId, u)
  {
    var ns := WorkshopRows(regs, workshopId, ntype, title, message);
    var rs := RegistrationsOf(regs, workshopId);
    if k :| 0 <= k < |ns| && ns[k].userId == u {
      assert rs[k] in regs;
      var j :| 0 <= j < |regs| && regs[j] == rs[k];
    }
    if Registered(regs, workshopId, u) {
      var j :| 0 <= j < |regs| && regs[j].workshopId == workshopId && regs[j].userId == u;
      assert regs[j] in rs;
      var k :| 0 <= k < |rs| && rs[k] == regs[j];
      assert ns[k].userId == u;
    }
  }

  /** Nothing when the workshop does not exist; otherwise one row per registration. */
  method NotifyWorkshopRegistrants(db: Database, workshopId: WorkshopId, ntype: NotificationType,
                                   title: string, message: string)
    requires IdsArePositions(db.notifications)
    modifies db`notifications
    ensures IdsArePositions(db.notifications)
    ensures workshopId !in db.workshops ==> db.notifications == old(db.notifications)
    ensures workshopId in db.workshops ==>
      db.notifications == WithRows(old(db.notifications), WorkshopRows(db.registrations, workshopId, ntype, title, message))
  {
    if workshopId !in db.workshops {
      return;
    }
    var notifications := WorkshopRows(db.registrations, workshopId, ntype, title, message);
    CreateNotifications(db, notifications);
  }

  // ----- notifyNewResource -----

  function VerifiedUsers(users: map<UserId, User>): set<UserId> {
    set u | u in users && users[u].isVerified
  }

  function ResourceRow(userId: UserId, title: string, message: string): NotificationData {
    NotificationData(userId, RESOURCE_PUBLISHED, title, message, None)
  }

  function Recipients(ns: seq<NotificationData>): set<UserId> {
    set k | 0 <= k < |ns| :: ns[k].userId
  }

  predicate DistinctRecipients(ns: seq<NotificationData>) {
    forall i, j :: 0 <= i < j < |ns| ==> ns[i].userId != ns[j].userId
  }

  predicate ResourceRows(ns: seq<NotificationData>, title: string, message: string) {
    forall k :: 0 <= k < |ns| ==> ns[k] == ResourceRow(ns[k].userId, title, message)
  }

  lemma AppendRecipient(ns: seq<NotificationData>, row: NotificationData)
    requires DistinctRecipients(ns) && row.userId !in Recipients(ns)
    ensures Recipients(ns + [row]) == Recipients(ns) + {row.userId}
    ensures DistinctRecipients(ns + [row])
  {
    var ms := ns + [row];
    assert forall k :: 0 <= k < |ns| ==> ms[k] == ns[k];
    assert ms[|ns|] == row;
    forall i, j | 0 <= i < j < |ms| ensures ms[i].userId != ms[j].userId {
      if j == |ns| {
        assert ms[i].userId in Recipients(ns);
      }
    }
  }

  lemma AppendResourceRow(ns: seq<NotificationData>, u: UserId, title: string, message: string)
    requires ResourceRows(ns, title, message)
    ensures ResourceRows(ns + [ResourceRow(u, title, message)], title, message)
  {
    var ms := ns + [ResourceRow(u, title, message)];
    assert forall k :: 0 <= k < |ns| ==> ms[k] == ns[k];
  }

  /** The rows of `users.map(...)` over `findMany({ where: { isVerified: true } })`:
      every verified user exactly once, no unverified user, in the order the query
      happens to return them. This only reads the user table. */
  method NewResourceRows(users: map<UserId, User>, title: string, message: string)
    returns (ns: seq<NotificationData>)
    ensures Recipients(ns) == VerifiedUsers(users)
    ensures DistinctRecipients(ns) && |ns| == |VerifiedUsers(users)|
    ensures ResourceRows(ns, title, message)
  {
    var remaining := VerifiedUsers(users);
    ns := [];
    ghost var done: set<UserId> := {};
    while remaining != {}
      invariant remaining !! done && remaining + done == VerifiedUsers(users)
      invariant Recipients(ns) == done && DistinctRecipients(ns) && |ns| == |done|
      invariant ResourceRows(ns, title, message)
      decreases |remaining|
    {
      var u :| u in remaining;
      var row := ResourceRow(u, title, message);
      AppendRecipient(ns, row);
      AppendResourceRow(ns, u, title, message);
      assert |done + {u}| == |done| + 1;
      ns := ns + [row];
      remaining := remaining - {u};
      done := done + {u};
    }
  }

  method NotifyNewResource(db: Database, resourceId: ResourceId, title: string, message: string)
    requires IdsArePositions(db.notifications)
    modifies db`notifications
    ensures IdsArePositions(db.notifications)
    ensures exists ns: seq<NotificationData> :: Recipients(ns) == VerifiedUsers(db.users) && DistinctRecipients(ns)
                         && db.notifications == WithRows(old(db.notifications), ns)
                         && ResourceRows(ns, title, message)
  {
    var notifications := NewResourceRows(db.users, title, message);
    CreateNotifications(db, notifications);
    assert Recipients(notifications) == VerifiedUsers(db.users);
  }

  // ----- notifyAgreementReady -----

  /** The plaintiff, and the defendant when one is bound, each with the case attached. */
  function AgreementReadyRows(c: Case, caseId: CaseId, title: string, message: string): (ns: seq<NotificationData>)
    ensures |ns| == (if c.defendantId.Some? then 2 else 1)
    ensures ns[0].userId == c.plaintiffId
    ensures |ns| == 2 ==> ns[1].userId == c.defendantId.value
    ensures forall k :: 0 <= k < |ns| ==> ns[k].ntype == AGREEMENT_READY && ns[k].caseId == Some(caseId)
  {
    [NotificationData(c.plaintiffId, AGREEMENT_READY, title, message, Some(caseId))]
    + if c.defendantId.Some? then [NotificationData(c.defendantId.value, AGREEMENT_READY, title, message, Some(caseId))] else []
  }

  /** Nothing for a missing case; otherwise the rows are built with `push` and inserted. */
  method NotifyAgreementReady(db: Database, caseId: CaseId, title: string, message: string)
    requires IdsArePositions(db.notifications)
    modifies db`notifications
    ensures IdsArePositions(db.notifications)
    ensures caseId !in db.cases ==> db.notifications == old(db.notifications)
    ensures caseId in db.cases ==>
      db.notifications == WithRows(old(db.notifications), AgreementReadyRows(db.cases[caseId], caseId, title, message))
  {
    if caseId !in db.cases {
      return;
    }
    var c := db.cases[caseId];
    var notifications := [NotificationData(c.plaintiffId, AGREEMENT_READY, title, message, Some(caseId))];
    if c.defendantId.Some? {
      notifications := notifications + [NotificationData(c.defendantId.value, AGREEMENT_READY, title, message, Some(caseId))];
    }
    CreateNotifications(db, notifications);
  }
}
