/** The resource library: the published-only listing and detail (which counts a view),
    the per-user progress upsert, and the admin-only create, update and delete. */
module Resources {
  import opened Common
  import opened Store

  // ----- listing -----

  /** `where`: published, the exact `type` (already checked against the enum) and
      `category` when given, and a `search` found in the title or the description,
      ignoring case. */
  predicate ResourceMatches(r: Resource, rtype: Option<string>, category: Option<string>, search: Option<string>) {
    && r.isPublished
    && (rtype.Some? ==> r.rtype == rtype.value)
    && (NonEmpty(category).Some? ==> r.category == category.value)
    && (NonEmpty(search).Some? ==> ContainsIgnoringCase(r.title, search.value) || ContainsIgnoringCase(r.description, search.value))
  }

  datatype ResourceListing = ResourceListing(
    ids: set<ResourceId>, page: int, limit: int, total: nat, pages: Option<int>, categories: set<string>)

  /** `distinct: ['category']` over the published resources. */
  function Categories(rs: map<ResourceId, Resource>): set<string> {
    set id | id in rs && rs[id].isPublished :: rs[id].category
  }

  /** GET /resources, with `page = 1` and `limit = 12`: the page is a newest-first window
      of `ids`. A `type` outside the enum, a NaN page or size, or a negative skip makes
      Prisma refuse the query. */
  function ListSpec(t: Tables, rtype: Option<string>, category: Option<string>, search: Option<string>,
                    page: Option<string>, limit: Option<string>): Outcome<ResourceListing> {
    match (ResourceTypeFilter(rtype), Paging(page, limit, 12))
    case (Some(ty), Some(w)) =>
      var ids := set id | id in t.resources && ResourceMatches(t.resources[id], ty, category, search);
      Done(200, ResourceListing(ids, w.page, w.limit, |ids|, PageCount(|ids|, w.limit), Categories(t.resources)))
    case _ => Failed(InvalidArgument)
  }

  /** A query Prisma refuses fails, and only such a query; the listing holds exactly the
      published resources that pass every given filter, so no unpublished resource is
      ever listed and none that matches is left out; the categories are those of published
      resources only, whatever the filters, and unaffected by them. */
  lemma ListPublishedOnly(t: Tables, rtype: Option<string>, category: Option<string>, search: Option<string>,
                          page: Option<string>, limit: Option<string>)
    ensures var l := ListSpec(t, rtype, category, search, page, limit);
      && (l.Failed? <==> ResourceTypeFilter(rtype).None? || Paging(page, limit, 12).None?)
      && (l.Failed? ==> l.error == InvalidArgument)
      && (!l.Failed? ==> l.Done?)
    ensures var l := ListSpec(t, rtype, category, search, page, limit);
      l.Done? ==>
      && (forall id :: id in l.value.ids ==> id in t.resources && t.resources[id].isPublished)
      && (forall id :: id in l.value.ids && NonEmpty(rtype).Some? ==>
            t.resources[id].rtype == rtype.value && rtype.value in ResourceTypes)
      && (forall id :: id in l.value.ids && NonEmpty(category).Some? ==> t.resources[id].category == category.value)
      && (forall id :: id in l.value.ids && NonEmpty(search).Some? ==>
            ContainsIgnoringCase(t.resources[id].title, search.value)
            || ContainsIgnoringCase(t.resources[id].description, search.value))
      && (forall id :: id in t.resources && t.resources[id].isPublished
            && (NonEmpty(rtype).Some? ==> t.resources[id].rtype == rtype.value)
            && (NonEmpty(category).Some? ==> t.resources[id].category == category.value)
            && (NonEmpty(search).Some? ==> ContainsIgnoringCase(t.resources[id].title, search.value)
                                           || ContainsIgnoringCase(t.resources[id].description, search.value))
            ==> id in l.value.ids)
      && (forall c :: c in l.value.categories <==> exists id :: id in t.resources && t.resources[id].isPublished && t.resources[id].category == c)
      && l.value.categories == ListSpec(t, None, None, None, page, limit).value.categories
      && l.value.total == |l.value.ids|
      && Paging(page, limit, 12) == Some(PageWindow(l.value.page, l.value.limit))
  {
  }

  /** Any published resource whose title contains the search term is found by it, on
      any page the query can reach. */
  lemma SearchFindsTitle(t: Tables, id: ResourceId, search: string, page: Option<string>, limit: Option<string>)
    requires id in t.resources && t.resources[id].isPublished && search != []
    requires ContainsIgnoringCase(t.resources[id].title, search)
    requires Paging(page, limit, 12).Some?
    ensures ListSpec(t, None, None, Some(search), page, limit).Done?
    ensures id in ListSpec(t, None, None, Some(search), page, limit).value.ids
  {
  }

  // ----- one resource, and its view count -----

  /** A missing or unpublished resource is "not found" and not counted; otherwise the
      count grows by one, and the response is the record as read before the update. */
  function GetSpec(t: Tables, id: ResourceId): (Tables, Outcome<Resource>) {
    if id !in t.resources || !t.resources[id].isPublished then (t, Refused(404, "Resource not found"))
    else
      var r := t.resources[id];
      (t.(resources := t.resources[id := r.(viewCount := r.viewCount + 1)]), Done(200, r))
  }

  lemma GetCountsOneView(t: Tables, id: ResourceId)
    ensures var (t', out) := GetSpec(t, id);
      && (out.Refused? <==> id !in t.resources || !t.resources[id].isPublished)
      && (out.Refused? ==> t' == t && out == Refused(404, "Resource not found"))
      && (out.Done? ==>
            && out.value == t.resources[id]
            && t'.resources.Keys == t.resources.Keys
            && t'.resources[id].viewCount == t.resources[id].viewCount + 1
            && t'.resources[id] == out.value.(viewCount := out.value.viewCount + 1)
            && (forall other :: other in t.resources && other != id ==> t'.resources[other] == t.resources[other])
            && t' == t.(resources := t'.resources))
  {
  }

  /** Reads the resource, then increments its count; answers with what it read. */
  method Get(db: Database, id: ResourceId) returns (out: Outcome<Resource>)
    requires db.Valid()
    modifies db`resources
    ensures db.Valid()
    ensures (db.Snapshot(), out) == GetSpec(old(db.Snapshot()), id)
  {
    if id !in db.resources || !db.resources[id].isPublished {
      return Refused(404, "Resource not found");
    }
    var resource := db.resources[id];
    db.resources := db.resources[id := db.resources[id].(viewCount := db.resources[id].viewCount + 1)];
    return Done(200, resource);
  }

  // ----- progress -----

  /** `progress || 0`, `completed || false` and the access time; a create and an update
      write the same row. */
  function ProgressRow(progress: Option<int>, completed: Option<bool>, now: int): (p: Progress)
    ensures progress.None? ==> p.progress == 0
    ensures progress.Some? ==> p.progress == progress.value
    ensures p.completed <==> completed == Some(true)
    ensures p.lastAccessed == now
  {
    Progress(Pick(progress, 0), completed == Some(true), now)
  }

  /** The upsert on the (user, resource) key. Progress for a resource that does not exist
      breaks the foreign key. */
  function ProgressSpec(t: Tables, caller: Principal, id: ResourceId, progress: Option<int>,
                        completed: Option<bool>, now: int): (Tables, Outcome<Progress>)
  {
    if id !in t.resources then (t, Failed(ForeignKeyViolation))
    else
      var p := ProgressRow(progress, completed, now);
      (t.(progress := t.progress[(caller.id, id) := p]), Done(200, p))
  }

  /** One row per (user, resource): a first call creates it and a later one overwrites
      it, never adding a second; no other user's or resource's row changes. */
  lemma ProgressUpsert(t: Tables, caller: Principal, id: ResourceId, progress: Option<int>,
                       completed: Option<bool>, now: int)
    requires id in t.resources
    ensures var (t', out) := ProgressSpec(t, caller, id, progress, completed, now);
      && out.Done? && t'.progress[(caller.id, id)] == out.value
      && t'.progress.Keys == t.progress.Keys + {(caller.id, id)}
      && (forall k :: k in t.progress && k != (caller.id, id) ==> t'.progress[k] == t.progress[k])
      && t' == t.(progress := t'.progress)
  {
  }

  /** The number of progress rows grows by one on a create and stays on an overwrite. */
  lemma ProgressRowCount(t: Tables, caller: Principal, id: ResourceId, progress: Option<int>,
                         completed: Option<bool>, now: int)
    requires id in t.resources
    ensures var t' := ProgressSpec(t, caller, id, progress, completed, now).0;
      |t'.progress| == if (caller.id, id) in t.progress then |t.progress| else |t.progress| + 1
  {
    MapSetSize(t.progress, (caller.id, id), ProgressRow(progress, completed, now));
  }

  /** Repeating the same report writes the same row: the upsert is idempotent up to the
      access time. */
  lemma ProgressIdempotent(t: Tables, caller: Principal, id: ResourceId, progress: Option<int>,
                           completed: Option<bool>, now: int)
    requires id in t.resources
    ensures var t1 := ProgressSpec(t, caller, id, progress, completed, now).0;
      ProgressSpec(t1, caller, id, progress, completed, now).0 == t1
  {
  }

  method UpdateProgress(db: Database, caller: Principal, id: ResourceId, progress: Option<int>,
                        completed: Option<bool>, now: int) returns (out: Outcome<Progress>)
    requires db.Valid()
    modifies db`progress
    ensures db.Valid()
    ensures (db.Snapshot(), out) == ProgressSpec(old(db.Snapshot()), caller, id, progress, completed, now)
  {
    if id !in db.resources {
      return Failed(ForeignKeyViolation);
    }
    var p := ProgressRow(progress, completed, now);
    db.progress := db.progress[(caller.id, id) := p];
    return Done(200, p);
  }

  // ----- admin: create, update, delete -----

  /** `tags?.map(...) || []`: no tags is the empty set. */
  function TagSet(tags: Option<seq<string>>): (r: set<string>)
    ensures tags.None? ==> r == {}
    ensures tags.Some? ==> forall tag :: tag in r <==> tag in tags.value
  {
    if tags.None? then {} else set k | 0 <= k < |tags.value| :: tags.value[k]
  }

  datatype ResourceForm = ResourceForm(
    title: string, description: string, content: string, rtype: string, category: string,
    videoUrl: Option<string>, thumbnailUrl: Option<string>, author: string, tags: Option<seq<string>>)

  /** A new resource is a draft with no views. */
  function NewResource(f: ResourceForm): Resource {
    Resource(f.title, f.description, f.content, f.rtype, f.category, f.videoUrl, f.thumbnailUrl, f.author,
             false, 0, TagSet(f.tags))
  }

  /** A `type` outside the enum, a missing one included, makes Prisma refuse the
      create. */
  function CreateSpec(t: Tables, caller: Principal, newId: ResourceId, f: ResourceForm): (Tables, Outcome<Resource>)
    requires newId !in t.resources
  {
    if caller.role != ADMIN then (t, Refused(403, "Access denied"))
    else if f.rtype !in ResourceTypes then (t, Failed(InvalidArgument))
    else (t.(resources := t.resources[newId := NewResource(f)]), Done(201, NewResource(f)))
  }

  /** The body of an update: an absent field is kept, except the tags. */
  datatype ResourceUpdate = ResourceUpdate(
    title: Option<string>, description: Option<string>, content: Option<string>, rtype: Option<string>,
    category: Option<string>, videoUrl: Option<string>, thumbnailUrl: Option<string>, author: Option<string>,
    isPublished: Option<bool>, tags: Option<seq<string>>)

  /** `tags: { set: [], connectOrCreate: ... }`: the tag set is replaced outright, and
      emptied when the body has no tags. */
  function ApplyUpdate(r: Resource, u: ResourceUpdate): Resource {
    Resource(Pick(u.title, r.title), Pick(u.description, r.description), Pick(u.content, r.content),
             Pick(u.rtype, r.rtype), Pick(u.category, r.category),
             if u.videoUrl.Some? then u.videoUrl else r.videoUrl,
             if u.thumbnailUrl.Some? then u.thumbnailUrl else r.thumbnailUrl,
             Pick(u.author, r.author), Pick(u.isPublished, r.isPublished), r.viewCount, TagSet(u.tags))
  }

  /** Prisma checks a given `type` against the enum before it looks for the row. */
  function UpdateSpec(t: Tables, caller: Principal, id: ResourceId, u: ResourceUpdate): (Tables, Outcome<Resource>) {
    if caller.role != ADMIN then (t, Refused(403, "Access denied"))
    else if u.rtype.Some? && u.rtype.value !in ResourceTypes then (t, Failed(InvalidArgument))
    else if id !in t.resources then (t, Failed(RecordNotFound))
    else
      var r := ApplyUpdate(t.resources[id], u);
      (t.(resources := t.resources[id := r]), Done(200, r))
  }

  /** After an update the resource has exactly the supplied tags (none when the body
      has none), whatever it had before, keeps its view count, takes each supplied field
      and keeps each omitted one; no other resource or table changes, and a type outside
      the enum changes nothing. */
  lemma UpdateReplacesTags(t: Tables, caller: Principal, id: ResourceId, u: ResourceUpdate)
    ensures var (t', out) := UpdateSpec(t, caller, id, u);
      out.Done? ==>
        && id in t.resources
        && t' == t.(resources := t.resources[id := out.value])
        && (forall tag :: tag in out.value.tags <==> u.tags.Some? && tag in u.tags.value)
        && out.value.viewCount == t.resources[id].viewCount
        && out.value.title == Pick(u.title, t.resources[id].title)
        && out.value.description == Pick(u.description, t.resources[id].description)
        && out.value.content == Pick(u.content, t.resources[id].content)
        && out.value.category == Pick(u.category, t.resources[id].category)
        && out.value.author == Pick(u.author, t.resources[id].author)
        && out.value.isPublished == Pick(u.isPublished, t.resources[id].isPublished)
        && out.value.rtype == Pick(u.rtype, t.resources[id].rtype)
        && (u.rtype.Some? ==> out.value.rtype in ResourceTypes)
    ensures var (t', out) := UpdateSpec(t, caller, id, u);
      caller.role == ADMIN && u.rtype.Some? && u.rtype.value !in ResourceTypes ==>
        t' == t && out == Failed(InvalidArgument)
  {
  }

  function DeleteSpec(t: Tables, caller: Principal, id: ResourceId): (Tables, Outcome<string>) {
    if caller.role != ADMIN then (t, Refused(403, "Access denied"))
    else if id !in t.resources then (t, Failed(RecordNotFound))
    else (t.(resources := t.resources - {id}), Done(200, "Resource deleted successfully"))
  }

  /** A non-admin creates, updates and deletes nothing and is told 403. */
  lemma AdminOnly(t: Tables, caller: Principal, newId: ResourceId, f: ResourceForm, id: ResourceId, u: ResourceUpdate)
    requires newId !in t.resources && caller.role != ADMIN
    ensures CreateSpec(t, caller, newId, f) == (t, Refused(403, "Access denied"))
    ensures UpdateSpec(t, caller, id, u) == (t, Refused(403, "Access denied"))
    ensures DeleteSpec(t, caller, id) == (t, Refused(403, "Access denied"))
  {
  }

  /** An admin's create adds exactly the new draft, carrying every submitted field, of a
      type the enum has, and changes nothing else; any other type is refused and nothing
      is written. */
  lemma AdminWrites(t: Tables, admin: Principal, newId: ResourceId, f: ResourceForm)
    requires newId !in t.resources && admin.role == ADMIN
    ensures var (t', out) := CreateSpec(t, admin, newId, f);
      && (out.Failed? <==> f.rtype !in ResourceTypes)
      && (out.Failed? ==> t' == t && out.error == InvalidArgument)
      && (!out.Failed? ==>
            && out.Done? && out.code == 201
            && t' == t.(resources := t.resources[newId := out.value])
            && out.value.title == f.title && out.value.description == f.description
            && out.value.content == f.content && out.value.rtype == f.rtype
            && out.value.category == f.category && out.value.videoUrl == f.videoUrl
            && out.value.thumbnailUrl == f.thumbnailUrl && out.value.author == f.author
            && !out.value.isPublished && out.value.viewCount == 0
            && (forall tag :: tag in out.value.tags <==> f.tags.Some? && tag in f.tags.value))
  {
  }

  /** An admin's delete removes exactly the resource named and keeps every other one as
      it was; a missing one is P2025. */
  lemma AdminDeletes(t: Tables, admin: Principal, id: ResourceId)
    requires admin.role == ADMIN
    ensures var (t', out) := DeleteSpec(t, admin, id);
      && (id !in t.resources <==> out == Failed(RecordNotFound))
      && (id !in t.resources ==> t' == t)
      && (id in t.resources ==> out.Done? && t' == t.(resources := t.resources - {id}))
      && (forall other :: other in t.resources && other != id ==> other in t'.resources && t'.resources[other] == t.resources[other])
      && id !in t'.resources
  {
  }

  method Create(db: Database, caller: Principal, newId: ResourceId, f: ResourceForm) returns (out: Outcome<Resource>)
    requires db.Valid() && newId !in db.resources
    modifies db`resources
    ensures db.Valid()
    ensures (db.Snapshot(), out) == CreateSpec(old(db.Snapshot()), caller, newId, f)
  {
    if caller.role != ADMIN {
      return Refused(403, "Access denied");
    }
    if f.rtype !in ResourceTypes {
      return Failed(InvalidArgument);
    }
    var resource := NewResource(f);
    db.resources := db.resources[newId := resource];
    return Done(201, resource);
  }

  method Update(db: Database, caller: Principal, id: ResourceId, u: ResourceUpdate) returns (out: Outcome<Resource>)
    requires db.Valid()
    modifies db`resources
    ensures db.Valid()
    ensures (db.Snapshot(), out) == UpdateSpec(old(db.Snapshot()), caller, id, u)
  {
    if caller.role != ADMIN {
      return Refused(403, "Access denied");
    }
    if u.rtype.Some? && u.rtype.value !in ResourceTypes {
      return Failed(InvalidArgument);
    }
    if id !in db.resources {
      return Failed(RecordNotFound);
    }
    var resource := ApplyUpdate(db.resources[id], u);
    db.resources := db.resources[id := resource];
    return Done(200, resource);
  }

  method Delete(db: Database, caller: Principal, id: ResourceId) returns (out: Outcome<string>)
    requires db.Valid()
    modifies db`resources
    ensures db.Valid()
    ensures (db.Snapshot(), out) == DeleteSpec(old(db.Snapshot()), caller, id)
  {
    if caller.role != ADMIN {
      return Refused(403, "Access denied");
    }
    if id !in db.resources {
      return Failed(RecordNotFound);
    }
    db.resources := db.resources - {id};
    return Done(200, "Resource deleted successfully");
  }
}
