/** The user routes: the profile and its address upsert, the profile photo and its
    image filter, and the caller's notifications: the listing with its unread count,
    marking one as read and marking all as read. `updateMany` is a loop over the
    notification table. */
module Users {
  import opened Common
  import opened Store
  import opened Upload

  // ----- profile -----

  function ProfileSpec(t: Tables, caller: Principal): (out: Outcome<User>)
    ensures out.Refused? <==> caller.id !in t.users
    ensures out.Refused? ==> out == Refused(404, "User not found")
    ensures out.Done? ==> out.value == t.users[caller.id]
    ensures !out.Failed?
  {
    if caller.id !in t.users then Refused(404, "User not found") else Done(200, t.users[caller.id])
  }

  /** The `address` object of the request body; any of its fields may be missing. */
  datatype AddressInput = AddressInput(street: Option<string>, city: Option<string>, zipCode: Option<string>)

  /** The row the upsert writes, creating or updating alike: a missing or empty field is ''. */
  function AddressOf(a: AddressInput): (r: Address)
    ensures a.street.None? || a.street == Some("") ==> r.street == ""
    ensures NonEmpty(a.street).Some? ==> r.street == a.street.value
    ensures a.city.None? || a.city == Some("") ==> r.city == ""
    ensures NonEmpty(a.city).Some? ==> r.city == a.city.value
    ensures a.zipCode.None? || a.zipCode == Some("") ==> r.zipCode == ""
    ensures NonEmpty(a.zipCode).Some? ==> r.zipCode == a.zipCode.value
  {
    Address(OrDefault(a.street, ""), OrDefault(a.city, ""), OrDefault(a.zipCode, ""))
  }

  function UpdateProfileSpec(t: Tables, caller: Principal, name: Option<string>, phone: Option<string>,
                             address: Option<AddressInput>): (Tables, Outcome<User>)
  {
    if caller.id !in t.users then (t, Failed(RecordNotFound))
    else
      var u := t.users[caller.id];
      var u' := u.(name := Pick(name, u.name), phone := Pick(phone, u.phone),
                  address := if address.Some? then Some(AddressOf(address.value)) else u.address);
      (t.(users := t.users[caller.id := u']), Done(200, u'))
  }

  /** Without an address in the body the stored address is kept, whatever it was;
      with one, the caller ends up with exactly that address, with '' for what is
      missing, whether or not there was one before. Only the caller's row changes. */
  lemma AddressUpsert(t: Tables, caller: Principal, name: Option<string>, phone: Option<string>,
                      address: Option<AddressInput>)
    requires caller.id in t.users
    ensures var (t', out) := UpdateProfileSpec(t, caller, name, phone, address);
      && out.Done? && t'.users.Keys == t.users.Keys
      && (address.None? ==> t'.users[caller.id].address == t.users[caller.id].address)
      && (address.Some? ==> t'.users[caller.id].address == Some(AddressOf(address.value)))
      && (forall id :: id in t.users && id != caller.id ==> t'.users[id] == t.users[id])
      && t'.users[caller.id].password == t.users[caller.id].password
      && t' == t.(users := t'.users)
  {
  }

  method UpdateProfile(db: Database, caller: Principal, name: Option<string>, phone: Option<string>,
                       address: Option<AddressInput>) returns (out: Outcome<User>)
    requires db.Valid()
    modifies db`users
    ensures db.Valid()
    ensures (db.Snapshot(), out) == UpdateProfileSpec(old(db.Snapshot()), caller, name, phone, address)
  {
    if caller.id !in db.users {
      return Failed(RecordNotFound);
    }
    var u := db.users[caller.id];
    var updated := u.(name := Pick(name, u.name), phone := Pick(phone, u.phone));
    if address.Some? {
      updated := updated.(address := Some(AddressOf(address.value)));
    }
    db.users := db.users[caller.id := updated];
    return Done(200, updated);
  }

  // ----- profile photo -----

  /** `/jpeg|jpg|png|gif/.test(s)` */
  predicate NamesImage(s: string) {
    Contains(s, "jpeg") || Contains(s, "jpg") || Contains(s, "png") || Contains(s, "gif")
  }

  /** The photo upload's `fileFilter`: the lower-cased extension and the mimetype, as
      written, must both name an image format. */
  predicate PhotoFilter(originalname: string, mimetype: string) {
    NamesImage(mimetype) && NamesImage(Lower(Extname(originalname)))
  }

  const PhotoMaxSize: nat := 5 * 1024 * 1024

  /** multer's `limits.fileSize` beside the filter: a photo is taken when the filter
      passes it and it has at most 5 MB. */
  predicate PhotoAccepted(originalname: string, mimetype: string, size: nat) {
    PhotoFilter(originalname, mimetype) && size <= PhotoMaxSize
  }

  /** Exactly 5 MB is within the limit and one byte more is not, whatever the name. */
  lemma PhotoSizeBoundary(originalname: string, mimetype: string)
    ensures PhotoMaxSize == 5242880
    ensures PhotoAccepted(originalname, mimetype, PhotoMaxSize) == PhotoFilter(originalname, mimetype)
    ensures !PhotoAccepted(originalname, mimetype, PhotoMaxSize + 1)
  {
  }

  lemma ContainsAt(s: string, sub: string, i: nat)
    requires i + |sub| <= |s| && s[i..i + |sub|] == sub
    ensures Contains(s, sub)
  {
    assert OccursAt(s, sub, i);
  }

  lemma AbsentFirstChar(s: string, sub: string)
    requires sub != [] && sub[0] !in s
    ensures !Contains(s, sub)
  {
    forall i | 0 <= i <= |s| - |sub| ensures !OccursAt(s, sub, i) {
      assert s[i..i + |sub|][0] == s[i];
    }
  }

  /** A photo needs an extension of at least three characters after its dot: a name
      without one is refused, whatever the mimetype says. */
  lemma PhotoNeedsExtension(originalname: string, mimetype: string)
    requires PhotoFilter(originalname, mimetype)
    ensures |Extname(originalname)| >= 4
  {
    var ext := Extname(originalname);
    assert |Lower(ext)| == |ext|;
    if ext != [] {
      assert Lower(ext)[0] == '.';
      assert forall i :: 0 <= i < |ext| && i + 3 <= |ext| ==> Lower(ext)[i] == LowerChar(ext[i]);
    }
  }

  /** The extension is compared without regard to case. */
  lemma UpperCaseExtensionAccepted()
    ensures PhotoFilter("me.JPG", "image/jpeg")
  {
    assert LastIndexOf("me.JPG", '.') == 2;
    assert Extname("me.JPG") == ".JPG";
    assert Lower(".JPG") == ".jpg";
    ContainsAt(".jpg", "jpg", 1);
    ContainsAt("image/jpeg", "jpeg", 6);
  }

  /** The mimetype is compared as written: an upper-case one is refused. */
  lemma UpperCaseMimetypeRefused(originalname: string)
    ensures !PhotoFilter(originalname, "IMAGE/PNG")
  {
    var m := "IMAGE/PNG";
    assert 'j' !in m && 'p' !in m && 'g' !in m;
    AbsentFirstChar(m, "jpeg");
    AbsentFirstChar(m, "jpg");
    AbsentFirstChar(m, "png");
    AbsentFirstChar(m, "gif");
  }

  /** With no file the handler answers 400 and nothing changes; otherwise the caller's
      photo becomes the stored filename. */
  function UploadPhotoSpec(t: Tables, caller: Principal, filename: Option<string>): (Tables, Outcome<User>)
  {
    if filename.None? then (t, Refused(400, "No file uploaded"))
    else if caller.id !in t.users then (t, Failed(RecordNotFound))
    else
      var u := t.users[caller.id].(photo := filename);
      (t.(users := t.users[caller.id := u]), Done(200, u))
  }

  /** The photo upload's own multer: `single('photo')`, no `files` limit, 5 MB. */
  const PhotoLimits := MulterLimits(1, None, PhotoMaxSize)

  predicate AcceptsPhoto(f: UploadedFile) {
    PhotoFilter(f.originalname, f.mimetype)
  }

  /** The route as a whole: multer runs before the handler, and a refused file ends the
      request with the error handler's 500 before anything is written. */
  function UploadPhotoRoute(t: Tables, caller: Principal, files: seq<UploadedFile>): (Tables, Outcome<User>)
  {
    match MulterRefusal(files, PhotoLimits, AcceptsPhoto, "Only image files are allowed")
    case Some(m) => (t, Refused(500, m))
    case None => UploadPhotoSpec(t, caller, if files == [] then None else Some(files[0].filename))
  }

  /** The photo is changed only by a single file that PhotoAccepted takes; a second file,
      a non-image or more than 5 MB writes nothing, and no file at all is the handler's
      400. */
  lemma UploadPhotoRouteGate(t: Tables, caller: Principal, files: seq<UploadedFile>)
    ensures var (t', out) := UploadPhotoRoute(t, caller, files);
      && (out.Done? ==> |files| == 1 && PhotoAccepted(files[0].originalname, files[0].mimetype, files[0].size)
                        && t' == t.(users := t.users[caller.id := out.value]) && out.value.photo == Some(files[0].filename))
      && (|files| > 1 || (exists k :: 0 <= k < |files| && !PhotoAccepted(files[k].originalname, files[k].mimetype, files[k].size)) ==>
            t' == t && out.Refused? && out.code == 500)
      && (files == [] ==> t' == t && out == Refused(400, "No file uploaded"))
  {
    MulterPasses(files, PhotoLimits, AcceptsPhoto, "Only image files are allowed");
  }

  lemma UploadPhotoEffect(t: Tables, caller: Principal, filename: Option<string>)
    ensures var (t', out) := UploadPhotoSpec(t, caller, filename);
      && (filename.None? <==> out == Refused(400, "No file uploaded"))
      && (!out.Done? ==> t' == t)
      && (out.Done? ==> t'.users == t.users[caller.id := t.users[caller.id].(photo := filename)] && t' == t.(users := t'.users))
  {
  }

  method UploadPhoto(db: Database, caller: Principal, filename: Option<string>) returns (out: Outcome<User>)
    requires db.Valid()
    modifies db`users
    ensures db.Valid()
    ensures (db.Snapshot(), out) == UploadPhotoSpec(old(db.Snapshot()), caller, filename)
  {
    if filename.None? {
      return Refused(400, "No file uploaded");
    }
    if caller.id !in db.users {
      return Failed(RecordNotFound);
    }
    var u := db.users[caller.id].(photo := filename);
    db.users := db.users[caller.id := u];
    return Done(200, u);
  }

  // ----- the notification listing -----

  datatype NotificationListing = NotificationListing(
    ids: set<nat>, page: int, limit: int, total: nat, pages: Option<int>, unreadCount: nat)

  function UnreadOf(log: seq<Notification>, userId: UserId): set<nat> {
    set k | 0 <= k < |log| && log[k].userId == userId && !log[k].isRead
  }

  /** GET /users/notifications, with `page = 1` and `limit = 20`: the caller's
      notifications, only the unread ones when `unreadOnly` is exactly 'true'; the page
      is a newest-first window of `ids`. A NaN page or size, or a negative skip, makes
      Prisma refuse the query. */
  function NotificationsSpec(t: Tables, caller: Principal, unreadOnly: Option<string>,
                             page: Option<string>, limit: Option<string>): Outcome<NotificationListing> {
    match Paging(page, limit, 20)
    case None => Failed(InvalidArgument)
    case Some(w) =>
      var log := t.notifications;
      var ids := set k | 0 <= k < |log| && log[k].userId == caller.id && (unreadOnly == Some("true") ==> !log[k].isRead);
      Done(200, NotificationListing(ids, w.page, w.limit, |ids|, PageCount(|ids|, w.limit), |UnreadOf(log, caller.id)|))
  }

  /** Only the caller's notifications are listed; the filter keeps exactly the unread
      ones; and `unreadCount` is the same with or without the filter, equal to the
      filtered total. Only a query Prisma refuses fails. */
  lemma NotificationsFilter(t: Tables, caller: Principal, unreadOnly: Option<string>,
                            page: Option<string>, limit: Option<string>)
    ensures var l := NotificationsSpec(t, caller, unreadOnly, page, limit);
      && (l.Failed? <==> Paging(page, limit, 20).None?)
      && (!l.Failed? ==> l.Done? && Paging(page, limit, 20) == Some(PageWindow(l.value.page, l.value.limit)))
    ensures var l := NotificationsSpec(t, caller, unreadOnly, page, limit);
      l.Done? ==>
      && (forall k :: k in l.value.ids ==> k < |t.notifications| && t.notifications[k].userId == caller.id)
      && (unreadOnly == Some("true") ==> l.value.ids == UnreadOf(t.notifications, caller.id) && l.value.total == l.value.unreadCount)
      && (unreadOnly != Some("true") ==> forall k :: k in l.value.ids <==> 0 <= k < |t.notifications| && t.notifications[k].userId == caller.id)
      && l.value.unreadCount == NotificationsSpec(t, caller, Some("true"), page, limit).value.unreadCount
      && l.value.unreadCount == NotificationsSpec(t, caller, None, page, limit).value.unreadCount
      && l.value.total == |l.value.ids| && l.value.pages == PageCount(l.value.total, l.value.limit)
  {
  }

  // ----- mark one as read -----

  predicate Targets(n: Notification, id: nat, userId: UserId) {
    n.id == id && n.userId == userId
  }

  /** The table after `updateMany({ where: { id, userId }, data: { isRead: true } })`. */
  function MarkOne(log: seq<Notification>, id: nat, userId: UserId): (r: seq<Notification>)
    ensures |r| == |log|
  {
    seq(|log|, k requires 0 <= k < |log| => if Targets(log[k], id, userId) then log[k].(isRead := true) else log[k])
  }

  /** The `count` `updateMany` reports. */
  function TargetCount(log: seq<Notification>, id: nat, userId: UserId): nat {
    if log == [] then 0
    else TargetCount(log[..|log| - 1], id, userId) + if Targets(log[|log| - 1], id, userId) then 1 else 0
  }

  lemma {:induction false} TargetCountZero(log: seq<Notification>, id: nat, userId: UserId)
    ensures TargetCount(log, id, userId) == 0 <==> forall k :: 0 <= k < |log| ==> !Targets(log[k], id, userId)
  {
    if log != [] {
      var init := log[..|log| - 1];
      TargetCountZero(init, id, userId);
      assert forall k :: 0 <= k < |init| ==> init[k] == log[k];
    }
  }

  function MarkReadSpec(t: Tables, caller: Principal, id: nat): (Tables, Outcome<string>) {
    if TargetCount(t.notifications, id, caller.id) == 0 then (t, Refused(404, "Notification not found"))
    else (t.(notifications := MarkOne(t.notifications, id, caller.id)), Done(200, "Notification marked as read"))
  }

  /** Marking succeeds exactly for a notification with that id that the caller owns, and
      then only that one changes, to read; everything else, including every
      notification of other users, is kept. Otherwise the answer is 404 and nothing
      changes. */
  lemma MarkReadOwnership(t: Tables, caller: Principal, id: nat)
    requires IdsArePositions(t.notifications)
    ensures var (t', out) := MarkReadSpec(t, caller, id);
      var log := t.notifications;
      var owned := id < |log| && log[id].userId == caller.id;
      && (out.Done? <==> owned)
      && (!owned ==> t' == t && out == Refused(404, "Notification not found"))
      && (owned ==> t' == t.(notifications := log[id := log[id].(isRead := true)]))
  {
    var log := t.notifications;
    TargetCountZero(log, id, caller.id);
    if id < |log| && log[id].userId == caller.id {
      assert Targets(log[id], id, caller.id);
      assert MarkOne(log, id, caller.id) == log[id := log[id].(isRead := true)];
    }
  }

  lemma MarkOneKeepsPositions(log: seq<Notification>, id: nat, userId: UserId)
    requires IdsArePositions(log)
    ensures IdsArePositions(MarkOne(log, id, userId))
  {
  }

  /** The `updateMany` loop: visits every row, flags the targets and counts them. */
  method MarkTargets(log: seq<Notification>, id: nat, userId: UserId) returns (marked: seq<Notification>, count: nat)
    ensures marked == MarkOne(log, id, userId) && count == TargetCount(log, id, userId)
  {
    marked := log;
    count := 0;
    var i := 0;
    while i < |marked|
      invariant |marked| == |log| && 0 <= i <= |log|
      invariant forall k :: 0 <= k < i ==> marked[k] == MarkOne(log, id, userId)[k]
      invariant forall k :: i <= k < |log| ==> marked[k] == log[k]
      invariant count == TargetCount(log[..i], id, userId)
    {
      assert log[..i + 1][..i] == log[..i];
      if Targets(marked[i], id, userId) {
        marked := marked[i := marked[i].(isRead := true)];
        count := count + 1;
      }
      i := i + 1;
    }
    assert log[..i] == log;
  }

  /** Writes the flagged rows, then answers 404 when no row was a target. */
  method MarkRead(db: Database, caller: Principal, id: nat) returns (out: Outcome<string>)
    requires db.Valid()
    modifies db`notifications
    ensures db.Valid()
    ensures (db.Snapshot(), out) == MarkReadSpec(old(db.Snapshot()), caller, id)
  {
    ghost var t := db.Snapshot();
    MarkOneKeepsPositions(db.notifications, id, caller.id);
    var marked, count := MarkTargets(db.notifications, id, caller.id);
    if count == 0 {
      return Refused(404, "Notification not found");
    }
    db.notifications := marked;
    ValidWhenKeysKept(t, db.Snapshot());
    return Done(200, "Notification marked as read");
  }

  // ----- mark all as read -----

  /** The table after `updateMany({ where: { userId, isRead: false }, data: { isRead: true } })`. */
  function MarkAll(log: seq<Notification>, userId: UserId): (r: seq<Notification>)
    ensures |r| == |log|
  {
    seq(|log|, k requires 0 <= k < |log| => if log[k].userId == userId && !log[k].isRead then log[k].(isRead := true) else log[k])
  }

  /** After read-all the caller has no unread notification; every other user's
      notifications, and everything but the flag, are as they were; and a second
      read-all changes nothing. */
  lemma ReadAllEffect(log: seq<Notification>, userId: UserId)
    ensures var r := MarkAll(log, userId);
      && UnreadOf(r, userId) == {}
      && (forall k :: 0 <= k < |log| ==> r[k] == log[k].(isRead := r[k].isRead))
      && (forall k :: 0 <= k < |log| && log[k].userId != userId ==> r[k] == log[k])
      && (forall k :: 0 <= k < |log| ==> (r[k].isRead <==> log[k].isRead || log[k].userId == userId))
      && MarkAll(r, userId) == r
  {
    var r := MarkAll(log, userId);
    assert forall k :: 0 <= k < |r| ==> r[k].userId == log[k].userId;
  }

  function ReadAllSpec(t: Tables, caller: Principal): (Tables, Outcome<string>) {
    (t.(notifications := MarkAll(t.notifications, caller.id)), Done(200, "All notifications marked as read"))
  }

  method ReadAll(db: Database, caller: Principal) returns (out: Outcome<string>)
    requires db.Valid()
    modifies db`notifications
    ensures db.Valid()
    ensures (db.Snapshot(), out) == ReadAllSpec(old(db.Snapshot()), caller)
  {
    ghost var log := db.notifications;
    var i := 0;
    while i < |db.notifications|
      invariant |db.notifications| == |log| && 0 <= i <= |log|
      invariant forall k :: 0 <= k < i ==> db.notifications[k] == MarkAll(log, caller.id)[k]
      invariant forall k :: i <= k < |log| ==> db.notifications[k] == log[k]
    {
      if db.notifications[i].userId == caller.id && !db.notifications[i].isRead {
        db.notifications := db.notifications[i := db.notifications[i].(isRead := true)];
      }
      i := i + 1;
    }
    assert db.notifications == MarkAll(log, caller.id);
    return Done(200, "All notifications marked as read");
  }
}
