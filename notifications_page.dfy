/** The notifications page: the filter over the loaded list, and the local updates that
    follow marking one entry read, deleting one and marking all read. */
module NotificationsPage {
  import opened Common

  /** One entry of the list as the page holds it. */
  datatype Note = Note(
    id: string, title: string, message: string, kind: string, read: bool,
    createdAt: string, caseId: Option<string>)

  /** How a `fetch` ended: it returned some HTTP response, or it threw (the network
      failed) and the handler's `catch` ran. */
  datatype FetchResult = Returned(status: nat, body: seq<Note>) | Threw

  /** `response.ok` */
  predicate Ok(r: FetchResult) {
    r.Returned? && 200 <= r.status <= 299
  }

  // ----- filteredNotifications -----

  predicate Matches(n: Note, filter: string) {
    if filter == "ALL" then true
    else if filter == "UNREAD" then !n.read
    else n.kind == filter
  }

  function FilterNotes(ns: seq<Note>, filter: string): seq<Note>
    decreases |ns|
  {
    if ns == [] then []
    else (if Matches(ns[0], filter) then [ns[0]] else []) + FilterNotes(ns[1..], filter)
  }

  /** An entry is listed exactly when it is loaded and passes the filter: every entry for
      "ALL", the unread ones for "UNREAD", otherwise those of that type. */
  lemma {:induction false} FilterContents(ns: seq<Note>, filter: string)
    ensures forall n :: n in FilterNotes(ns, filter) <==> n in ns && Matches(n, filter)
    ensures filter == "ALL" ==> FilterNotes(ns, filter) == ns
    ensures forall n :: n in FilterNotes(ns, "UNREAD") <==> n in ns && !n.read
    ensures filter != "ALL" && filter != "UNREAD" ==>
      forall n :: n in FilterNotes(ns, filter) <==> n in ns && n.kind == filter
    decreases |ns|
  {
    if ns != [] {
      FilterContents(ns[1..], filter);
      FilterContents(ns[1..], "UNREAD");
      assert ns == [ns[0]] + ns[1..];
    }
  }

  /** Filtering keeps the order of the list. */
  lemma {:induction false} FilterKeepsOrder(a: seq<Note>, b: seq<Note>, filter: string)
    ensures FilterNotes(a + b, filter) == FilterNotes(a, filter) + FilterNotes(b, filter)
    decreases |a|
  {
    if a == [] {
      assert a + b == b;
    } else {
      assert (a + b)[1..] == a[1..] + b;
      FilterKeepsOrder(a[1..], b, filter);
    }
  }

  // ----- the local updates -----

  /** `prev.map(notif => notif.id === id ? { ...notif, read: true } : notif)` */
  function MarkRead(ns: seq<Note>, id: string): (r: seq<Note>)
    ensures |r| == |ns|
  {
    seq(|ns|, i requires 0 <= i < |ns| => if ns[i].id == id then ns[i].(read := true) else ns[i])
  }

  /** `prev.map(notif => ({ ...notif, read: true }))` */
  function MarkAll(ns: seq<Note>): (r: seq<Note>)
    ensures |r| == |ns|
  {
    seq(|ns|, i requires 0 <= i < |ns| => ns[i].(read := true))
  }

  /** `prev.filter(notif => notif.id !== id)` */
  function Without(ns: seq<Note>, id: string): seq<Note>
    decreases |ns|
  {
    if ns == [] then []
    else (if ns[0].id != id then [ns[0]] else []) + Without(ns[1..], id)
  }

  /** `notifications.some(n => !n.read)`: whether "Mark all read" is offered. */
  predicate AnyUnread(ns: seq<Note>) {
    exists k :: 0 <= k < |ns| && !ns[k].read
  }

  function CountUnread(ns: seq<Note>): nat
    decreases |ns|
  {
    if ns == [] then 0 else (if ns[0].read then 0 else 1) + CountUnread(ns[1..])
  }

  /** Marking one entry read changes the entries with that id and no others, keeps every
      other field, and doing it twice, or for two ids in either order, is the same. */
  lemma MarkReadOnlyThatId(ns: seq<Note>, id: string, other: string)
    ensures forall k :: 0 <= k < |ns| ==>
      && MarkRead(ns, id)[k] == (if ns[k].id == id then ns[k].(read := true) else ns[k])
      && MarkRead(ns, id)[k].id == ns[k].id
    ensures MarkRead(MarkRead(ns, id), id) == MarkRead(ns, id)
    ensures MarkRead(MarkRead(ns, id), other) == MarkRead(MarkRead(ns, other), id)
    ensures !AnyUnread(ns) ==> MarkRead(ns, id) == ns
  {
  }

  /** Marking all read leaves nothing unread, so the control disappears; it is
      idempotent and subsumes marking any single entry. */
  lemma MarkAllClearsUnread(ns: seq<Note>, id: string)
    ensures !AnyUnread(MarkAll(ns))
    ensures MarkAll(MarkAll(ns)) == MarkAll(ns)
    ensures MarkRead(MarkAll(ns), id) == MarkAll(ns)
    ensures MarkAll(MarkRead(ns, id)) == MarkAll(ns)
    ensures forall k :: 0 <= k < |ns| ==> MarkAll(ns)[k] == ns[k].(read := true)
  {
  }

  /** The control is offered exactly when the count of unread entries is positive, which
      is exactly when the "UNREAD" filter lists something. */
  lemma {:induction false} MarkAllOfferedIffUnread(ns: seq<Note>)
    ensures AnyUnread(ns) <==> CountUnread(ns) > 0
    ensures AnyUnread(ns) <==> FilterNotes(ns, "UNREAD") != []
    decreases |ns|
  {
    if ns != [] {
      MarkAllOfferedIffUnread(ns[1..]);
      if AnyUnread(ns[1..]) {
        var k :| 0 <= k < |ns[1..]| && !ns[1..][k].read;
        assert !ns[k + 1].read;
      }
      if AnyUnread(ns) && ns[0].read {
        var k :| 0 <= k < |ns| && !ns[k].read;
        assert k > 0 && !ns[1..][k - 1].read;
      }
    } else {
      assert !AnyUnread(ns);
    }
  }

  /** Deleting removes exactly the entries with that id and keeps the others in order. */
  lemma {:induction false} DeleteOnlyThatId(ns: seq<Note>, id: string)
    ensures forall n :: n in Without(ns, id) <==> n in ns && n.id != id
    ensures |Without(ns, id)| <= |ns|
    ensures (forall k :: 0 <= k < |ns| ==> ns[k].id != id) ==> Without(ns, id) == ns
    decreases |ns|
  {
    if ns != [] {
      DeleteOnlyThatId(ns[1..], id);
      assert ns == [ns[0]] + ns[1..];
      if forall k :: 0 <= k < |ns| ==> ns[k].id != id {
        assert forall k :: 0 <= k < |ns[1..]| ==> ns[1..][k].id != id by {
          forall k | 0 <= k < |ns[1..]| ensures ns[1..][k].id != id {
            assert ns[1..][k] == ns[k + 1];
          }
        }
      }
    }
  }

  lemma {:induction false} DeleteKeepsOrder(a: seq<Note>, b: seq<Note>, id: string)
    ensures Without(a + b, id) == Without(a, id) + Without(b, id)
    decreases |a|
  {
    if a == [] {
      assert a + b == b;
    } else {
      assert (a + b)[1..] == a[1..] + b;
      DeleteKeepsOrder(a[1..], b, id);
    }
  }

  /** The page's `notifications` state. */
  class NotificationList {
    var notifications: seq<Note>

    constructor()
      ensures notifications == []
    {
      notifications := [];
    }

    /** `fetchNotifications`: the list is replaced only by a successful response. */
    method Load(r: FetchResult)
      modifies this
      ensures notifications == if Ok(r) then r.body else old(notifications)
    {
      if Ok(r) {
        notifications := r.body;
      }
    }

    /** `markAsRead(id)`: the response's status is not looked at, so the entry is shown
        read whenever the request came back at all. */
    method MarkAsRead(id: string, r: FetchResult)
      modifies this
      ensures notifications == if r.Threw? then old(notifications) else MarkRead(old(notifications), id)
    {
      if r.Threw? {
        return;
      }
      notifications := MarkRead(notifications, id);
    }

    /** `deleteNotification(id)` */
    method Delete(id: string, r: FetchResult)
      modifies this
      ensures notifications == if r.Threw? then old(notifications) else Without(old(notifications), id)
    {
      if r.Threw? {
        return;
      }
      notifications := Without(notifications, id);
    }

    /** `markAllAsRead()` */
    method MarkAllAsRead(r: FetchResult)
      modifies this
      ensures notifications == if r.Threw? then old(notifications) else MarkAll(old(notifications))
    {
      if r.Threw? {
        return;
      }
      notifications := MarkAll(notifications);
    }
  }
}
