# resolveit: a verified model of the mediation platform's rules

resolveit is a dispute-mediation web application: a user registers a case against an
opposite party, an administrator contacts that party and forms a panel of a lawyer, a
religious scholar and a social expert, the parties sign a settlement agreement, and every
step is recorded in the case's timeline and announced through notifications. Beside the
cases it runs workshops with limited seats and a library of published resources.

This project models the rule logic of that system in Dafny and proves what the rules
promise:

- the Express route handlers of the backend (agreements, administration, cases,
  workshops, users, resources, authentication) as methods over an in-memory copy of the
  database (`Store.Database`), each proved equal to a specification function on a
  snapshot of the tables, with the properties proved as lemmas about those functions;
- the notification helpers, the upload and validation middleware, the security
  middleware and the error handler;
- the frontend's pure helpers (`frontend/lib/utils.ts`) and the rules of five pages: the
  administrator's case list, the dashboard, the user's case list, the case registration
  form and the notifications page.

Files, one module each:

| file | module | models |
|---|---|---|
| common.dfy | Common | Option, JavaScript string helpers (`lastIndexOf`, `substring`, `toLowerCase`, `split`, `replace`), `parseInt` and `toString`, the paging arithmetic |
| store.dfy | Store | the database rows and enums, the status and type filters, `class Database` holding every table, `createMany` of notifications |
| agreements.dfy | Agreements | backend/src/routes/agreements.ts |
| admin.dfy | Admin | backend/src/routes/admin.ts |
| cases.dfy | Cases | backend/src/routes/cases.ts |
| workshops.dfy | Workshops | backend/src/routes/workshops.ts |
| users.dfy | Users | backend/src/routes/users.ts |
| notify.dfy | Notify | backend/src/utils/notifications.ts |
| upload.dfy | Upload | backend/src/middleware/upload.ts |
| validation.dfy | Validation | backend/src/middleware/validation.ts (the two custom middlewares) |
| security.dfy | Security | backend/src/middleware/security.ts |
| resources.dfy | Resources | backend/src/routes/resources.ts |
| auth.dfy | Auth | backend/src/routes/auth.ts |
| errorhandler.dfy | ErrorHandler | backend/src/middleware/errorHandler.ts |
| utils.dfy | FrontendUtils | frontend/lib/utils.ts |
| admin_cases_page.dfy | AdminCasesPage | frontend/app/admin/cases/page.tsx |
| dashboard_page.dfy | DashboardPage | frontend/app/dashboard/page.tsx |
| cases_page.dfy | CasesPage | frontend/app/cases/page.tsx |
| register_page.dfy | RegisterPage | frontend/app/cases/register/page.tsx |
| notifications_page.dfy | NotificationsPage | frontend/app/notifications/page.tsx |

How the database is modelled. Each table is a field of `Store.Database`: users, cases,
agreements, workshops, resources and panels are maps keyed by id; signatures, case
updates, registrations, progress rows and notifications are sequences that handlers
append to. A notification's id is its position. Prisma's behaviour is written out where
the handlers rely on it: a field left `undefined` in an update keeps its value, an update
of a missing row fails with "record not found" (P2025), a second row for a unique key
fails with P2002, and a nested create commits all rows or none. A handler's `modifies`
clause names exactly the tables it writes, so "nothing else changes" is a frame the
verifier checks. Fresh ids, the clock, hashing, token signing and the network are
parameters. The authenticated caller is a parameter `Principal(id, role)`, since the
authentication middleware is not part of this model.

Responses are `Outcome`s: `Done(status, value)`, `Refused(status, message)` for a
response the handler writes itself, and `Failed(error)` for a database error handed to
the error handler, whose answer `ErrorHandler.DatabaseFailures` states.

Several rules one would expect of a mediation workflow are not what the code does; the
model follows the code:

- One would expect status updates to follow a transition graph. `cases.ts:303-305`
  writes whatever valid status is requested (`Cases.UpdateStatusWritesTrail`).
- One would expect a panel to be formed only for an ACCEPTED case, and only once.
  `admin.ts:230-328` checks neither; a second panel fails only on the table's unique key
  (`Admin.PanelIgnoresCaseStatus`).
- One would expect only the parties and the administrator to create an agreement.
  `agreements.ts:58-71` also admits the case's panel members (`Agreements.CreateAccess`).
- Edits stop once an agreement is SIGNED or EXECUTED, but before that the code writes
  any requested status of the enum verbatim, SIGNED included, without a signature
  (`Agreements.UpdateRespectsLock`).
- Notifying several recipients could be one write per recipient. The code inserts all rows
  with one `createMany`, modelled as one append (`Store.CreateNotifications`).

## Model

| member | source | states |
|---|---|---|
| Store.StatusOf | frontend/types/index.ts:43-51 | a string parses to a status only if that status's name is the string |
| Store.StatusNamesRoundTrip | frontend/types/index.ts:43-51 | every status's name parses back to that status |
| Store.CaseTypeOf | backend/src/routes/admin.ts:130-132 | a string parses to a case type only if that type's name is the string |
| Store.StatusFilter | backend/src/routes/admin.ts:126-128 | a missing or empty `status` means no filter; a non-empty one is accepted exactly when it names a status, and then filters by that status |
| Store.CaseTypeFilter | backend/src/routes/admin.ts:130-132 | the same for `type`: no filter when empty, exactly the named case type otherwise, an unknown one refused by the query layer |
| Store.AgreementStatusOf | backend/src/routes/agreements.ts:188-193 | a string parses to an agreement status only if that status's name is the string |
| Store.AgreementStatusNamesRoundTrip | backend/src/routes/agreements.ts:188-193 | every agreement status name parses back to its status |
| Store.ResourceTypeFilter | backend/src/routes/resources.ts:14 | no filter when `type` is falsy; only a name from the five resource types passes, any other is refused by the query layer |
| Store.WithRowsKeepsPositions | backend/src/routes/admin.ts:310-312 | appending notification rows keeps every id equal to its position and adds exactly one row per datum |
| Store.CreateNotifications | backend/src/routes/admin.ts:310-312 | `createMany`: the table becomes the old rows followed by one new unread row per datum, ids still equal to positions |
| Common.NonEmpty | backend/src/routes/cases.ts:36-39 | a JavaScript truthiness test on an optional string: present exactly when given and non-empty, and then unchanged |
| Common.LastIndexOf | backend/src/middleware/security.ts:185 | `lastIndexOf`: -1 exactly when the character does not occur; otherwise the position of its last occurrence |
| Common.SubstringFrom | backend/src/middleware/security.ts:185 | `substring(start)`: a negative start gives the whole string, an in-range one the suffix |
| Common.JoinSplit | backend/src/routes/auth.ts:128 | joining the pieces of `split` with the separator gives back the string |
| Common.ParseIntOfNatToString | frontend/app/admin/cases/page.tsx:512 | `parseInt` reads back what `toString` writes for every natural number |
| Common.PageCount | backend/src/routes/admin.ts:221 | `Math.ceil(total / limit)`: no number for a zero limit, and otherwise the least page count whose pages hold every row |
| Common.Paging | backend/src/routes/admin.ts:161-210 | `page` and `limit` read by `parseInt` with the route's defaults: a NaN in either, or a negative skip, is refused; an accepted pair skips no negative count; no query gives page 1 of the default size |
| Common.PagingOfNumbers | backend/src/routes/admin.ts:161 | values `parseInt` reads as a page from 1 on and a size from 0 on give that page |
| Common.PagingReadsNumbers | backend/src/routes/admin.ts:161 | a page and size written as numbers are read back as they are, and a page alone comes with the default size |
| Common.PageZeroRefused | backend/src/routes/admin.ts:161 | page 0 of a positive size, given or by default, skips backwards and is refused |
| Common.PagesCoverTotal | backend/src/routes/admin.ts:161 | `skip = (page - 1) * limit` falls inside the rows for every page from 1 to the page count |
| Common.ShownRangeWithinRows | frontend/app/cases/page.tsx:275-277 | the "Showing x to y" range lies within 1..total and spans at most one page of rows |
| Common.ReplaceKeepsOthers | frontend/app/cases/page.tsx:160 | `replace('_', ' ')` keeps the length, and a string without an underscore is returned unchanged |
| Common.ReplaceFirstOnly | frontend/app/cases/page.tsx:160 | only the first underscore becomes a space; every later one is kept |
| Agreements.SignersOf | backend/src/routes/agreements.ts:240-243 | the users who signed agreement `id`: exactly those with a signature on it |
| Agreements.RequiredSigners | backend/src/routes/agreements.ts:264-270 | the plaintiff first, the defendant second exactly when one is bound, nobody else |
| Agreements.ConsensusMeansBothParties | backend/src/routes/agreements.ts:272 | `every`/`includes` over the required list holds exactly when the plaintiff and any bound defendant are among the signers |
| Agreements.SignaturesFor | backend/src/routes/agreements.ts:127-131 | the signatures shown with an agreement are exactly its own |
| Agreements.AgreementOf | backend/src/routes/agreements.ts:127-136 | the agreement found through its case, none exactly when the case has none |
| Agreements.CreateKeepsOnePerCase | backend/src/routes/agreements.ts:74-88 | a second agreement for a case is refused with 400 and nothing written; a `templateId` that names no template is a foreign-key failure with nothing written; a created one is a DRAFT with the given case, template and content, unsigned, created now; at most one agreement per case before and after |
| Agreements.CreateAccess | backend/src/routes/agreements.ts:58-71 | a caller who is not a party, a panel member or ADMIN gets 403 and the tables are unchanged |
| Agreements.GetByCaseAccess | backend/src/routes/agreements.ts:112-136 | reading succeeds only for a permitted caller on a case with an agreement, and such a caller always gets 200 with that agreement and its own signatures; any other caller gets 403, a case without one 404 |
| Agreements.UpdateRespectsLock | backend/src/routes/agreements.ts:184-205 | a SIGNED or EXECUTED agreement is refused with 400 and unchanged; any other takes the supplied content and the named status, keeps its case, template, creation and signing times, and the tables are the old ones with only that agreement replaced; a status name outside the enum is a query error that writes nothing |
| Agreements.UpdateAccess | backend/src/routes/agreements.ts:175-181 | an update by anyone but a party or ADMIN, panel members included, is refused with 403 and changes nothing |
| Agreements.SignersOfAppend | backend/src/routes/agreements.ts:240-258 | one more signature adds its user to the agreement's signers, in order, and only to that agreement's |
| Agreements.SignOnlyPartiesOnce | backend/src/routes/agreements.ts:232-243 | a signature is written exactly for a party who has not signed yet; every refusal leaves the tables unchanged; success appends one signature, the caller's; no table other than signatures, agreements and cases ever changes |
| Agreements.SignKeepsValid | backend/src/routes/agreements.ts:240-258 | signing keeps (agreement, user) unique among signatures and every other table invariant |
| Agreements.SignConsensus | backend/src/routes/agreements.ts:255-269 | `allSigned` is true exactly when the plaintiff and, when one is bound, the defendant are among the agreement's signers |
| Agreements.SignConcludes | backend/src/routes/agreements.ts:271-286 | on consensus the agreement becomes SIGNED at `now` and the case RESOLVED; otherwise neither record changes |
| Agreements.PlaintiffAloneConcludes | backend/src/routes/agreements.ts:264-286 | with no defendant, the plaintiff's signature reports consensus and resolves the case |
| Agreements.FirstSignatureWaits | backend/src/routes/agreements.ts:246-272 | on an unsigned agreement of a case with two distinct parties, whichever party signs first gets allSigned false, changes neither agreement nor case, and is then the only signer |
| Agreements.SecondSignatureConcludes | backend/src/routes/agreements.ts:246-288 | once one of the two parties has signed, the other's signature reports allSigned true, marks the agreement SIGNED at that time and the case RESOLVED |
| Agreements.PdfAccess | backend/src/routes/agreements.ts:319-325 | the PDF data is served exactly to a party or ADMIN of an existing agreement's case |
| Agreements.Create | backend/src/routes/agreements.ts:52-103 | the handler's effect and response equal CreateSpec's on the tables before it, and the invariants hold after |
| Agreements.GetByCase | backend/src/routes/agreements.ts:106-153 | the response equals GetByCaseSpec's; nothing is written |
| Agreements.Update | backend/src/routes/agreements.ts:156-208 | effect and response equal UpdateSpec's; only the agreement table may change |
| Agreements.Sign | backend/src/routes/agreements.ts:211-292 | inserting, re-reading, building the required list with `push` and the two conclusion writes together equal SignSpec |
| Agreements.Pdf | backend/src/routes/agreements.ts:295-341 | the response equals PdfSpec's; nothing is written |
| Admin.CasesWithUnion | backend/src/routes/admin.ts:20-30 | the cases in two disjoint status sets are counted by the sum of the two counts |
| Admin.InAllStatuses | backend/src/routes/admin.ts:20-30 | the eight statuses are all the statuses there are |
| Admin.CasesWithAll | backend/src/routes/admin.ts:20 | counting every status counts every case |
| Admin.StatsPartition | backend/src/routes/admin.ts:20-30 | the status buckets of the dashboard are disjoint and with the rejected cases make up the total; in progress is exactly the four intermediate statuses |
| Admin.DistributionCounts | backend/src/routes/admin.ts:48-55 | the type distribution has an entry for exactly the types that occur, each its count of cases, never zero |
| Admin.MonthlyStatsCount | backend/src/routes/admin.ts:72-84 | each month's entry counts all its cases, its RESOLVED ones as resolved and its PENDING and AWAITING_RESPONSE ones as pending |
| Admin.CountMonthBuckets | backend/src/routes/admin.ts:72-84 | a month's cases split into resolved, pending and the rest |
| Admin.MonthlyStatsKeys | backend/src/routes/admin.ts:72-84 | the trend has an entry for exactly the months that occur in the rows |
| Admin.MonthlyBound | backend/src/routes/admin.ts:72-84 | no month shows more resolved plus pending cases than it has |
| Admin.TrendCountsWindow | backend/src/routes/admin.ts:55-84 | the rows the trend folds count, month by month and status by status, exactly the cases created at or after the six-month cutoff |
| Admin.MonthlyTrend | backend/src/routes/admin.ts:55-84 | each month of the trend counts the cases created from the cutoff on in that month: all of them, the RESOLVED ones, and the PENDING and AWAITING_RESPONSE ones; older cases count nowhere |
| Admin.CasesSpec | backend/src/routes/admin.ts:112-227 | the listing fails, as a query error, exactly when the status or type names none, `page` or `limit` is NaN, the skip is negative, or `sortBy`/`sortOrder` name no column or direction; otherwise it holds exactly the matching cases, echoes the parsed page and limit, and `pages` is the ceiling of total over limit |
| Admin.SearchIgnoresCase | backend/src/routes/admin.ts:135-157 | searching for a term and for its lower-case form lists the same cases |
| Admin.CasesUnfiltered | backend/src/routes/admin.ts:112-227 | without a query every case is listed and counted, on page 1 of 20 rows |
| Admin.CasesBadQueryRefused | backend/src/routes/admin.ts:118-210 | a sort on a non-column, a direction other than asc or desc, and page 0 are each refused, whatever the rest of the query |
| Admin.CoverageIsMonotone | backend/src/routes/admin.ts:247-249 | adding members before or after a covering list keeps it covering |
| Admin.PanelOf | backend/src/routes/admin.ts:258-267 | the panel rows are the requested members in order, each with its parsed role |
| Admin.Invitations | backend/src/routes/admin.ts:302-312 | one PANEL_INVITATION per member, in order, addressed to that member |
| Admin.PanelRoleGate | backend/src/routes/admin.ts:244-255 | without each of the three roles the request gets 400 and no table changes |
| Admin.PanelIgnoresCaseStatus | backend/src/routes/admin.ts:230-299 | the panel is created for any case without one, whatever its status, once roles are covered and members valid |
| Admin.PanelCommitsAll | backend/src/routes/admin.ts:258-299 | on success the panel holds every member in order, the case becomes PANEL_CREATED, exactly one PANEL_CREATED timeline entry is appended, and other cases, users and agreements are untouched |
| Admin.PanelInvitesEachMember | backend/src/routes/admin.ts:301-312 | on success the old notification rows are kept and each member, in request order, gets one unread PANEL_INVITATION for the case |
| Admin.InvitationRows | backend/src/routes/admin.ts:301-312 | inserting the invitations of a member list appends, after the existing rows, one unread PANEL_INVITATION for the case per member, in order |
| Admin.CreatePanelKeepsValid | backend/src/routes/admin.ts:258-312 | panel creation keeps every table invariant |
| Admin.CreatePanel | backend/src/routes/admin.ts:230-328 | the sequential writes (panel, status, timeline entry, invitations) equal CreatePanelSpec and keep the invariants |
| Admin.CommitPanel | backend/src/routes/admin.ts:258-312 | the writes after the checks store the panel with its members, set the case to PANEL_CREATED, append the timeline entry and insert the invitations, and change nothing else |
| Admin.PanelMembersSpec | backend/src/routes/admin.ts:331-368 | the query fails exactly for a non-empty role that names no role |
| Admin.PanelMembersFilter | backend/src/routes/admin.ts:333-355 | every listed user is verified; without a role they are exactly the verified experts, with one exactly the verified users of that role |
| Admin.VerifySetsFlag | backend/src/routes/admin.ts:376-397 | the given flag is stored on that user only, one unread SYSTEM notice goes to the user titled by the flag; an unknown user is "record not found" with nothing written |
| Admin.VerifyWithoutFlag | backend/src/routes/admin.ts:376-397 | without the flag the user is unchanged and still told verification was revoked |
| Admin.VerifyKeepsValid | backend/src/routes/admin.ts:371-406 | verification keeps every table invariant |
| Admin.VerifyUser | backend/src/routes/admin.ts:371-406 | the update and the notice together equal VerifySpec |
| Auth.StripLosesOnlyPassword | backend/src/routes/auth.ts:65 | the public view and the password give back the row, so removing the password loses nothing else |
| Auth.RegisterRouteGate | backend/src/routes/auth.ts:11 | `upload.single('photo')` before the handler: a second file, a type outside the ten or an oversized file ends the request with 500 and writes nothing; one accepted file, or none, reaches the handler with its stored name or no photo |
| Auth.RegisterGate | backend/src/routes/auth.ts:16-29 | an email or phone clash refuses with 400 and writes nothing, and there is no other failure |
| Auth.RegisterAddsOneUser | backend/src/routes/auth.ts:31-72 | otherwise exactly one row is added and every other row is kept; it holds the hash, the photo only when a named file came, and the response is that row without its password |
| Auth.RegisterKeepsCredentialsUnique | backend/src/routes/auth.ts:16-55 | registration keeps emails and phone numbers unique across users |
| Auth.Register | backend/src/routes/auth.ts:11-75 | the check and the insert together equal RegisterSpec |
| Auth.Login | backend/src/routes/auth.ts:78-122 | never a database failure; an unknown email and a wrong password get the same 401; success answers with a matching user's view and token; with unique emails it succeeds exactly when one matches |
| Auth.BearerToken | backend/src/routes/auth.ts:128 | the token is the second space-separated word of the header, none for a missing or empty header or word |
| Auth.SplitAtFirst | backend/src/routes/auth.ts:128 | `split` puts what precedes the first separator in the first piece |
| Auth.SplitWithoutSeparator | backend/src/routes/auth.ts:128 | a string without the separator splits into itself alone |
| Auth.BearerRoundTrip | backend/src/routes/auth.ts:128 | `Bearer <token>` yields the token for any token without spaces |
| Auth.VerifyFailures | backend/src/routes/auth.ts:128-163 | the intended verify: every failure is 401, "No token provided" exactly without a token, and success shows the named user without the password |
| Auth.ValidTokenRefusedAsWritten | backend/src/routes/auth.ts:136-154 | as written, even a valid token of an existing user is refused with 401 |
| Cases.Documents | backend/src/routes/cases.ts:49-57 | one document row per uploaded file, in order |
| Cases.RegisterNeedsCaseType | backend/src/routes/cases.ts:32-34 | a case type outside the enum, a missing one included, is a query error that writes nothing; otherwise the case has the type named |
| Cases.RegisterOpensTimeline | backend/src/routes/cases.ts:32-81 | the caller is plaintiff of a new PENDING case of the named type; the description and the opposite party's name are stored as given, `isCourtPending` holds only for "true", and the case number, FIR number, police station and the opposite party's email, phone and address are stored when non-empty and null otherwise; the documents are one DocumentOf row per uploaded file, in order; the timeline opens with one PENDING entry |
| Cases.RegisterKeepsValid | backend/src/routes/cases.ts:32-92 | registration keeps the table invariants |
| Cases.RegisterRouteGate | backend/src/routes/cases.ts:11-15 | `upload.array('documents', 10)` before the handler: a case is registered only with at most ten files, each of an allowed type and within the size limit; any other upload ends with 500 and writes nothing; an accepted upload gives the handler's result |
| Cases.UpdatesOf | backend/src/routes/cases.ts:169-174 | a case's timeline holds only that case's entries |
| Cases.UpdatesOfComplete | backend/src/routes/cases.ts:169-174 | no entry of the case is missing from its timeline |
| Cases.UpdatesOfConcat | backend/src/routes/cases.ts:169-174 | the timeline keeps the order of the table: entries appended later come later |
| Cases.NewestUpdates | backend/src/routes/cases.ts:169-174 | `take: n` newest first: exactly min(n, the number of the case's entries) entries, the k-th being the k-th newest |
| Cases.MyCasesSpec | backend/src/routes/cases.ts:112-197 | the listing fails, as a query error, exactly when a filter names no enum value, `page` or `limit` is NaN, or the skip is negative; otherwise it holds exactly the caller's cases matching the filters, each with its five newest timeline entries (NewestUpdates), with the parsed page and limit |
| Cases.MyCasesAreOwn | backend/src/routes/cases.ts:117-122 | without filters, on any page the query accepts, the listing is exactly the cases where the caller is plaintiff or defendant |
| Cases.DetailSpec | backend/src/routes/cases.ts:205-222 | the case is shown exactly to its plaintiff, defendant or panel members; anyone else gets 404 |
| Cases.AdminNotPrivileged | backend/src/routes/cases.ts:266-270 | an ADMIN who is neither party nor panelist gets 404 |
| Cases.StatusRecipients | backend/src/routes/cases.ts:334-352 | the plaintiff always, the defendant exactly when bound |
| Cases.UpdateStatusPermission | backend/src/routes/cases.ts:286-300 | only ADMIN or the case's panel may update; anyone else gets 403 and nothing is written |
| Cases.UpdateStatusWritesTrail | backend/src/routes/cases.ts:303-358 | any valid status may follow any; a permitted update writes it, appends exactly one CaseUpdate with the given or generated description, and notifies the parties |
| Cases.UpdateStatusKeepsValid | backend/src/routes/cases.ts:279-374 | the update keeps every table invariant |
| Cases.Register | backend/src/routes/cases.ts:11-110 | creating the case, its first update and the notice equal RegisterSpec |
| Cases.UpdateStatus | backend/src/routes/cases.ts:279-374 | the update, the CaseUpdate and the `push`-built notifications equal UpdateStatusSpec |
| Cases.CommitStatus | backend/src/routes/cases.ts:303-359 | after the checks the case gets the new status, one CaseUpdate with the description is appended, and the `push`-built list, the plaintiff and any bound defendant, is inserted; nothing else changes |
| Workshops.ListedIds | backend/src/routes/workshops.ts:13-17 | exactly the active workshops, and with the default `upcoming` only those from now on |
| Workshops.InsertBySchedule | backend/src/routes/workshops.ts:29 | inserting a workshop keeps the listed ids and adds it |
| Workshops.InsertKeepsAscending | backend/src/routes/workshops.ts:29 | inserting into an ascending list keeps it ascending by schedule |
| Workshops.InsertKeepsDistinct | backend/src/routes/workshops.ts:29 | inserting a new id keeps the list free of repeats |
| Workshops.ScheduleOrder | backend/src/routes/workshops.ts:29 | `orderBy scheduledAt asc` lists each workshop once, in ascending schedule |
| Workshops.ListUpcoming | backend/src/routes/workshops.ts:9-48 | the listing fails exactly when `page` or `limit` is NaN or the skip is negative; otherwise, with the default `upcoming`, it is exactly the active workshops from now on, each once, earliest first, `total` is their number, and the parsed page and limit are echoed |
| Workshops.ListOnlyActive | backend/src/routes/workshops.ts:13-17 | any other `upcoming` drops the date condition but never the active one |
| Workshops.GetSpec | backend/src/routes/workshops.ts:71-73 | a missing or inactive workshop is 404 |
| Workshops.RegistrationsOfAppend | backend/src/routes/workshops.ts:120-130 | one more registration adds one to its workshop's count and none to others |
| Workshops.RegisterGate | backend/src/routes/workshops.ts:97-130 | registration succeeds exactly for an active workshop with a free seat the caller has not joined; it adds exactly that registration, and any refusal changes nothing |
| Workshops.RegisterRespectsCapacity | backend/src/routes/workshops.ts:102-104 | success raises the count by one and never past the maximum |
| Workshops.RegisterKeepsValid | backend/src/routes/workshops.ts:107-118 | at most one registration per (user, workshop), before and after |
| Workshops.RegisterTwiceRefused | backend/src/routes/workshops.ts:107-118 | a second request by the same user is refused |
| Workshops.Register | backend/src/routes/workshops.ts:82-136 | the chain of checks and the insert equal RegisterSpec |
| Workshops.CreateAdminOnly | backend/src/routes/workshops.ts:159-183 | only ADMIN creates, with 201; the new workshop carries every submitted field and is active, and the tables are the old ones plus that workshop |
| Workshops.Create | backend/src/routes/workshops.ts:159-184 | the insert equals CreateSpec |
| Workshops.ApplyUpdate | backend/src/routes/workshops.ts:201-213 | a field left out keeps its stored value, a given one replaces it |
| Workshops.OmittedIsActiveCancels | backend/src/routes/workshops.ts:216-221 | as written, an edit that gives neither `isActive` nor `title` keeps the workshop active yet tells every registrant it was cancelled, named "undefined" |
| Workshops.NoticeOnlyOnCancellation | backend/src/routes/workshops.ts:197-223 | intended: registrants are told exactly when the workshop goes from active to inactive, each once, by its own title |
| Workshops.UpdateRefusals | backend/src/routes/workshops.ts:189-192 | a non-admin gets 403, a missing workshop "record not found"; neither writes |
| Workshops.AsWrittenAgreesWhenExplicit | backend/src/routes/workshops.ts:216-221 | when the request gives `isActive` and `title`, the written and intended handlers agree |
| Workshops.UpdateKeepsValid | backend/src/routes/workshops.ts:187-229 | the update keeps every table invariant |
| Workshops.Update | backend/src/routes/workshops.ts:187-229 | reading, updating and notifying equal UpdateSpec (the corrected notice rule of the first "## Findings" row; the handler as written is UpdateSpecAsWritten) |
| Workshops.FindRegistration | backend/src/routes/workshops.ts:242-250 | the position of the (user, workshop) registration, none exactly when there is none |
| Workshops.AttendanceChangesOneFlag | backend/src/routes/workshops.ts:232-256 | only ADMIN, only on an existing registration, and an ADMIN on an existing registration always succeeds; the stored table is the old one with exactly the found registration replaced by that row with `attended` set to the given value (kept when omitted), every other registration unchanged, and an omitted value changes nothing |
| Workshops.AttendanceKeepsValid | backend/src/routes/workshops.ts:232-256 | marking attendance keeps every table invariant |
| Workshops.Attendance | backend/src/routes/workshops.ts:232-256 | the update equals AttendanceSpec |
| Users.ProfileSpec | backend/src/routes/users.ts:44-70 | the profile shown is the caller's own |
| Users.AddressOf | backend/src/routes/users.ts:83-98 | the address row holds each given field, '' for each missing one |
| Users.AddressUpsert | backend/src/routes/users.ts:83-98 | without an address the stored one is kept; with one the caller ends up with exactly it, created or updated; only the caller's row changes |
| Users.UpdateProfile | backend/src/routes/users.ts:73-109 | the update and the upsert equal ProfileSpec |
| Users.ContainsAt | backend/src/routes/users.ts:28-38 | a substring at a known position is contained |
| Users.PhotoNeedsExtension | backend/src/routes/users.ts:28-38 | a name without a three-letter image extension is refused whatever its mimetype |
| Users.PhotoSizeBoundary | backend/src/routes/users.ts:23-27 | the 5 MB limit: exactly 5242880 bytes pass the filter's verdict through, one byte more is refused |
| Users.UpperCaseExtensionAccepted | backend/src/routes/users.ts:30 | the extension test ignores case |
| Users.UpperCaseMimetypeRefused | backend/src/routes/users.ts:31 | the mimetype test does not: an upper-case one is refused |
| Users.UploadPhotoRouteGate | backend/src/routes/users.ts:24-38 | the photo's own multer before the handler: the photo changes only for a single file PhotoAccepted takes, to its stored name; a second file, a non-image or more than 5 MB ends with 500 and writes nothing; no file is the handler's 400 |
| Users.UploadPhotoEffect | backend/src/routes/users.ts:116-140 | without a file the answer is 400 and nothing changes; with one only the caller's photo changes |
| Users.UploadPhoto | backend/src/routes/users.ts:112-148 | the handler equals its specification |
| Users.NotificationsFilter | backend/src/routes/users.ts:156-193 | the listing fails exactly when `page` or `limit` is NaN or the skip is negative; otherwise only the caller's notifications, `unreadOnly=true` keeps exactly the unread ones, and `unreadCount` is the same either way |
| Users.MarkOne | backend/src/routes/users.ts:208-216 | `updateMany` on (id, owner) marks exactly the matching rows read |
| Users.TargetCountZero | backend/src/routes/users.ts:218-220 | the count is zero exactly when no row has that id and owner |
| Users.MarkReadOwnership | backend/src/routes/users.ts:208-220 | marking succeeds exactly for the caller's own notification, and only it changes; otherwise 404 and nothing changes |
| Users.MarkOneKeepsPositions | backend/src/routes/users.ts:208-216 | marking keeps ids equal to positions |
| Users.MarkTargets | backend/src/routes/users.ts:208-216 | the visit of every row flags exactly the caller's row with that id, keeps every other row, and returns the number of rows flagged |
| Users.MarkRead | backend/src/routes/users.ts:203-226 | the handler's new table and answer are those of MarkReadSpec, and every table invariant is kept |
| Users.MarkAll | backend/src/routes/users.ts:233-241 | read-all marks exactly the caller's unread rows |
| Users.ReadAllEffect | backend/src/routes/users.ts:233-241 | afterwards the caller has nothing unread; every other user's rows and every other field are kept; a second read-all changes nothing |
| Users.ReadAll | backend/src/routes/users.ts:229-247 | the loop equals MarkAll |
| Notify.CreateNotification | backend/src/utils/notifications.ts:11-19 | exactly one unread row with the given recipient, type, title, message and case |
| Notify.RegistrationsOf | backend/src/utils/notifications.ts:32-43 | exactly the registrations of that workshop |
| Notify.WorkshopRowsReachRegistrants | backend/src/utils/notifications.ts:45-51 | a user receives a row exactly when registered, one per registration |
| Notify.NotifyWorkshopRegistrants | backend/src/utils/notifications.ts:25-59 | nothing for a missing workshop, otherwise those rows appended |
| Notify.AppendRecipient | backend/src/utils/notifications.ts:73-79 | adding a new recipient keeps the recipients distinct |
| Notify.NewResourceRows | backend/src/utils/notifications.ts:68-80 | every verified user exactly once, no unverified one |
| Notify.NotifyNewResource | backend/src/utils/notifications.ts:61-87 | the rows appended reach exactly the verified users, once each |
| Notify.AgreementReadyRows | backend/src/utils/notifications.ts:105-125 | the plaintiff, and the defendant exactly when bound, each with the case |
| Notify.NotifyAgreementReady | backend/src/utils/notifications.ts:89-133 | nothing for a missing case, otherwise those one or two rows |
| Upload.Extname | backend/src/middleware/upload.ts:19 | `path.extname`: from the last dot, empty for no dot, a lone leading dot or ".." |
| Upload.StoredFilename | backend/src/middleware/upload.ts:17-20 | the stored name is the fresh id followed by the extension |
| Upload.StoredNameKeepsExtension | backend/src/middleware/upload.ts:17-20 | the stored name's extension is the original's |
| Upload.FileFilter | backend/src/middleware/upload.ts:24-45 | accepted exactly for the ten listed mimetypes |
| Upload.DefaultLimit | backend/src/middleware/upload.ts:47-54 | at most ten files, 10485760 bytes each without MAX_FILE_SIZE |
| Upload.RefusalFrom | backend/src/middleware/upload.ts:47-54 | multer handles the files in arrival order: no refusal exactly when no file from the position on is refused, and a refusal is the first refused file's |
| Upload.MulterPasses | backend/src/middleware/upload.ts:47-54 | a request passes multer exactly when it has no more files than the route and the `files` limit allow and every file passes the filter and the size limit |
| Upload.EleventhFileRefused | backend/src/middleware/upload.ts:52 | after ten accepted documents an eleventh stops the request with "Too many files" |
| Upload.GetDocumentType | backend/src/middleware/upload.ts:57-63 | image, video and audio by prefix in that order, PDF for exactly application/pdf, OTHER otherwise |
| Upload.AcceptedIsTyped | backend/src/middleware/upload.ts:26-63 | every accepted mimetype classifies as something other than OTHER |
| Upload.DocumentOf | backend/src/routes/cases.ts:49-57 | the document row keeps the stored name, the original's and the type |
| Validation.ScriptsIffScriptedLeaf | backend/src/middleware/validation.ts:264-280 | a value is refused exactly when a nested string, at any depth, passes one of the three tests: a `<script` tag, `javascript:` in any case, or an `on…=` event handler; numbers, booleans and null never are |
| Validation.MixedCaseSchemeCaught | backend/src/middleware/validation.ts:265-268 | `javascript:` in any mixture of cases anywhere in the string is caught |
| Validation.ValidateNoScriptTags | backend/src/middleware/validation.ts:263-295 | the body is checked before the query; the answer is 400 exactly when one of them contains a script |
| Validation.ExecutableBytes | backend/src/middleware/validation.ts:332-349 | a buffer is executable exactly when it starts with one of the signatures; fewer than two bytes never is |
| Validation.NulCheckedFirst | backend/src/middleware/validation.ts:311-315 | a NUL is reported even in a name that is also too long or traverses |
| Validation.NameLengthBound | backend/src/middleware/validation.ts:324-329 | 255 characters pass, 256 are refused |
| Validation.ContainsExtends | backend/src/middleware/validation.ts:318-322 | a name containing `../` keeps containing it when extended |
| Validation.ValidateFileUploadSecurity | backend/src/middleware/validation.ts:298-353 | no files passes; files are checked in order, null ones skipped, and the first failing check answers |
| Security.SanitizeKeepsShape | backend/src/middleware/security.ts:49-69 | arrays keep length and order, objects their keys, non-strings are unchanged, only strings are rewritten |
| Security.SanitizeIdentity | backend/src/middleware/security.ts:49-69 | a rewrite that keeps every string keeps every value |
| Security.SanitizeObject | backend/src/middleware/security.ts:49-79 | the `for...in` loop and the `map` compute the recursive sanitised value |
| Security.CsrfGate | backend/src/middleware/security.ts:85-101 | GET and `/api/auth/` paths pass; others throw exactly when the header token is falsy and `req.body` is undefined (the unchecked `req.body._csrf`), pass exactly with a non-empty token equal to a non-empty session token, and are otherwise refused with 403 |
| Security.CsrfBeforeBodyParsing | backend/src/server.ts:75-83 | with the body parsers mounted after `csrfProtection`, a state-changing non-auth request without a header token throws and the error handler answers 500 with the TypeError's message (its stack in development); with a header token it passes exactly when that equals the session token, else 403 |
| Security.CsrfHeaderFirst | backend/src/middleware/security.ts:91 | a header token wins over a body token; without a session token the request never passes |
| Security.DottedExtension | backend/src/middleware/security.ts:185 | from the last dot, or the whole lower-cased name without one |
| Security.ExtensionOfSuffix | backend/src/middleware/security.ts:185 | a name ending in a dotted suffix with no further dot has that suffix, lower-cased, as its extension, whatever precedes it |
| Security.UploadGate | backend/src/middleware/security.ts:151-191 | a file passes exactly when at most 10 MB, of the eight types, and not ending in a dangerous extension |
| Security.UpperCaseExeRefused | backend/src/middleware/security.ts:184-187 | `x.EXE` is refused whatever its base name |
| Security.ValidateFileUpload | backend/src/middleware/security.ts:146-195 | files in order, null skipped, the first refusal answers |
| Security.RequestSizeBoundary | backend/src/middleware/security.ts:198-208 | exactly 50 MB passes, one byte more gets 413; an unreadable length passes |
| Security.Query.constructor | backend/src/middleware/security.ts:211-222 | the query starts as given |
| Security.Query.PreventParameterPollution | backend/src/middleware/security.ts:211-222 | the loop collapses exactly the four paging keys |
| Security.CollapsedStep | backend/src/middleware/security.ts:213-219 | each round of the loop collapses one more, new, key |
| Security.CollapseStep | backend/src/middleware/security.ts:213-219 | collapsing one more key is one step on the collapsed query |
| Security.PollutionOnlyTouchesPaging | backend/src/middleware/security.ts:213-219 | only page, limit, sort and order change: an array becomes its first element, every other key keeps its value |
| Security.ResponseHeaders.constructor | backend/src/middleware/security.ts:225-251 | a response starts without headers |
| Security.ResponseHeaders.SetHeader | backend/src/middleware/security.ts:227 | `setHeader` overwrites exactly that header |
| Security.ResponseHeaders.SecurityHeaders | backend/src/middleware/security.ts:225-251 | the sequence of `setHeader` calls gives WithSecurityHeaders |
| Security.HeadersAlwaysSet | backend/src/middleware/security.ts:227-238 | framing denied, nosniff and X-XSS on every response, HSTS exactly on secure ones, every other header kept |
| Resources.ListPublishedOnly | backend/src/routes/resources.ts:8-57 | the listing fails, as a query error, exactly when `type` names no resource type, `page` or `limit` is NaN, or the skip is negative; otherwise the listing holds exactly the published resources whose type and category equal the given ones and whose title or description contains the search term, ignoring case, and categories are those of published resources, whatever the filters |
| Resources.SearchFindsTitle | backend/src/routes/resources.ts:17-20 | a published resource whose title contains the term is found, on any page the query accepts |
| Resources.GetCountsOneView | backend/src/routes/resources.ts:66-86 | missing or unpublished is 404 and uncounted; otherwise the count grows by exactly one and the record as read before is returned |
| Resources.Get | backend/src/routes/resources.ts:62-90 | the read and the increment equal GetSpec |
| Resources.ProgressRow | backend/src/routes/resources.ts:99-117 | missing progress is 0 and missing completion false, for create and update alike |
| Resources.ProgressUpsert | backend/src/routes/resources.ts:99-117 | one row per (user, resource): created first, overwritten later, no other row changes |
| Resources.ProgressRowCount | backend/src/routes/resources.ts:99-117 | the row count grows by one on a create and stays on an overwrite |
| Resources.ProgressIdempotent | backend/src/routes/resources.ts:99-117 | repeating the same report writes the same row |
| Resources.UpdateProgress | backend/src/routes/resources.ts:93-123 | the upsert equals its specification |
| Resources.TagSet | backend/src/routes/resources.ts:173-178 | the tags supplied, none when absent |
| Resources.UpdateReplacesTags | backend/src/routes/resources.ts:198-218 | afterwards exactly the supplied tags, whatever there were, the view count is kept, title, description, content, category, author, type and isPublished are the given ones or else the old ones, a given type is one of the enum, and the tables are the old ones with only that resource replaced; an admin's update naming another type is a query error that writes nothing |
| Resources.AdminOnly | backend/src/routes/resources.ts:156-159 | a non-admin's create, update and delete get 403 and change nothing |
| Resources.AdminWrites | backend/src/routes/resources.ts:154-187 | an admin's create adds exactly the new draft with 201, carrying every submitted field, no views and exactly the given tags, and changes nothing else; a type outside the enum, a missing one included, is a query error that writes nothing |
| Resources.AdminDeletes | backend/src/routes/resources.ts:230-247 | an admin's delete removes exactly that resource, keeps every other one as it was and changes no other table; a missing one is P2025 |
| Resources.Create | backend/src/routes/resources.ts:154-187 | the insert equals CreateSpec |
| Resources.Update | backend/src/routes/resources.ts:190-227 | the update equals UpdateSpec |
| Resources.Delete | backend/src/routes/resources.ts:230-247 | the delete equals DeleteSpec |
| ErrorHandler.DuplicateField | backend/src/middleware/errorHandler.ts:15 | the first target, or 'unknown' |
| ErrorHandler.Classification | backend/src/middleware/errorHandler.ts:12-49 | P2002 gives 400, P2025 404, ValidationError 400, the token errors 401; a code wins over a name; a stack only in development |
| ErrorHandler.Fallback | backend/src/middleware/errorHandler.ts:47-49 | an unknown error keeps its status and message, else 500 and "Internal server error" |
| ErrorHandler.DatabaseFailures | backend/src/middleware/errorHandler.ts:12-49 | a duplicate is 400 naming its first column, without a stack; a missing record 404; a foreign-key or validation failure 500 with the library's message, carrying the error's stack exactly in development |
| FrontendUtils.StatusTextLabels | frontend/lib/utils.ts:58-79 | each status its own label, any other string unchanged |
| FrontendUtils.ColorDefaults | frontend/lib/utils.ts:35-56 | gray exactly for what is no status; among types for OTHER and unknown ones |
| FrontendUtils.Truncation | frontend/lib/utils.ts:98-101 | a short text is kept; a longer one is its first `maxLength` characters and "...", three longer than the bound |
| FrontendUtils.EmailShape | frontend/lib/utils.ts:114-117 | one `@`, not first; no white space; a dot after it, neither right after it nor last |
| FrontendUtils.PhoneShape | frontend/lib/utils.ts:119-122 | 10 to 15 allowed characters after an optional leading `+`, no `+` elsewhere |
| FrontendUtils.NonEmptyWords | frontend/lib/utils.ts:124-129 | the words are the non-empty pieces between spaces |
| FrontendUtils.FirstLettersOfWords | frontend/lib/utils.ts:124-129 | one upper-cased first letter per non-empty word, in order |
| FrontendUtils.InitialsShape | frontend/lib/utils.ts:124-129 | at most two letters: those of the first two non-empty words |
| AdminCasesPage.OneActionAtMost | frontend/app/admin/cases/page.tsx:218-281 | at most one action; each status's own; Create Panel only without a panel; nothing for closed or unknown statuses |
| AdminCasesPage.PagerStuckOnFirstPage | frontend/app/admin/cases/page.tsx:187-193 | as written, asking for any page n > 1 leaves the list on page 1 |
| AdminCasesPage.PagerReachesPage | frontend/app/admin/cases/page.tsx:187-193 | intended: a page change reaches its page and keeps the filters, any other change goes to page 1 as written |
| AdminCasesPage.PagerWithinBounds | frontend/app/admin/cases/page.tsx:512-535 | previous and next move by at most one within the pages, and the range shown lies within the rows |
| DashboardPage.BucketsPartition | frontend/app/dashboard/page.tsx:70-75 | the buckets and the unbucketed cases add up to the total |
| DashboardPage.ClosedCasesUncounted | frontend/app/dashboard/page.tsx:72-74 | UNRESOLVED and REJECTED are in no bucket, and the buckets never exceed the total |
| DashboardPage.ColorsFollowBuckets | frontend/app/dashboard/page.tsx:77-114 | in-progress colour exactly for the four intermediate statuses; REJECTED and unknown look pending and show their raw text |
| CasesPage.FilterKeepsOrder | frontend/app/cases/page.tsx:115-117 | filtering distributes over concatenation, so cards keep the server's order |
| CasesPage.FilterContents | frontend/app/cases/page.tsx:115-117 | a card is listed exactly when fetched with the chosen status; "ALL" lists every card |
| CasesPage.OppositePartyName | frontend/app/cases/page.tsx:119-127 | the defendant's name, else the typed name, else "Unknown" |
| CasesPage.CardBadges | frontend/app/cases/page.tsx:185-186 | known status and type shown as themselves, unknown ones as Pending and Other; labels distinct |
| CasesPage.OfferedFiltersLabelled | frontend/app/cases/page.tsx:150-160 | UNRESOLVED is not offered; every other button shows its status's label, all distinct |
| CasesPage.EmptyMessageNamesFilter | frontend/app/cases/page.tsx:171 | the message names the lower-cased filter with its first underscore a space |
| RegisterPage.AcceptedFiles | frontend/app/cases/register/page.tsx:63-78 | a file is kept exactly when its type is one of the ten and it is at most 10 MB |
| RegisterPage.ValidFiles | frontend/app/cases/register/page.tsx:63-78 | the kept files are accepted files of the batch |
| RegisterPage.ValidFilesKeepOrder | frontend/app/cases/register/page.tsx:63-78 | kept files stay in the order picked |
| RegisterPage.ValidFilesComplete | frontend/app/cases/register/page.tsx:63-78 | every accepted file is kept |
| RegisterPage.AddBatchRule | frontend/app/cases/register/page.tsx:80-85 | the existing files stay first; the batch is taken exactly when the total stays within ten |
| RegisterPage.WithoutIndexShape | frontend/app/cases/register/page.tsx:88-90 | an index in range drops exactly that entry, keeping the order; any other keeps the list |
| RegisterPage.DocumentList.constructor | frontend/app/cases/register/page.tsx:41 | the list starts empty |
| RegisterPage.DocumentList.AddDocuments | frontend/app/cases/register/page.tsx:59-86 | the list becomes AddBatch of the old one, stays within ten, and the toasts are the refusals then the limit message |
| RegisterPage.DocumentList.RemoveDocument | frontend/app/cases/register/page.tsx:88-90 | the list becomes WithoutIndex of the old one and stays valid |
| RegisterPage.SchemaRules | frontend/app/cases/register/page.tsx:15-34 | five case types, 50 to 2000 characters of description; case number and station required exactly when pending in court |
| RegisterPage.BlankPhoneRefused | frontend/app/cases/register/page.tsx:19-20 | a blank phone fails the pattern while a blank email passes |
| RegisterPage.SentFieldsContents | frontend/app/cases/register/page.tsx:103-112 | a field goes out exactly when it has a value, with that value |
| RegisterPage.SentFieldsKeepOrder | frontend/app/cases/register/page.tsx:103-112 | fields go out in the order of their names |
| RegisterPage.SubmitGate | frontend/app/cases/register/page.tsx:93-118 | a request is made exactly for a verified user with a valid form, carrying every picked file in order |
| RegisterPage.FieldsSent | frontend/app/cases/register/page.tsx:103-112 | required fields always sent as typed, optional ones exactly when not blank |
| RegisterPage.KeyNamesDistinct | frontend/app/cases/register/page.tsx:103-112 | no two fields share a name |
| NotificationsPage.FilterContents | frontend/app/notifications/page.tsx:110-114 | "ALL" lists everything, "UNREAD" exactly the unread, any other exactly that type |
| NotificationsPage.FilterKeepsOrder | frontend/app/notifications/page.tsx:110-114 | filtering keeps the list's order |
| NotificationsPage.MarkRead | frontend/app/notifications/page.tsx:68-72 | the length is kept |
| NotificationsPage.MarkAll | frontend/app/notifications/page.tsx:102-104 | the length is kept |
| NotificationsPage.MarkReadOnlyThatId | frontend/app/notifications/page.tsx:68-72 | only entries with that id change, to read; idempotent; two ids commute |
| NotificationsPage.MarkAllClearsUnread | frontend/app/notifications/page.tsx:102-104 | nothing unread afterwards; idempotent; subsumes marking one |
| NotificationsPage.MarkAllOfferedIffUnread | frontend/app/notifications/page.tsx:147 | the control shows exactly when something is unread, exactly when "UNREAD" lists something |
| NotificationsPage.DeleteOnlyThatId | frontend/app/notifications/page.tsx:87 | exactly the entries with that id are removed |
| NotificationsPage.DeleteKeepsOrder | frontend/app/notifications/page.tsx:87 | the others keep their order |
| NotificationsPage.NotificationList.constructor | frontend/app/notifications/page.tsx:31 | the list starts empty |
| NotificationsPage.NotificationList.Load | frontend/app/notifications/page.tsx:40-56 | replaced only by a 2xx response |
| NotificationsPage.NotificationList.MarkAsRead | frontend/app/notifications/page.tsx:59-75 | updated whenever the request returns, whatever its status; unchanged only if it threw |
| NotificationsPage.NotificationList.Delete | frontend/app/notifications/page.tsx:78-91 | the same rule for deleting |
| NotificationsPage.NotificationList.MarkAllAsRead | frontend/app/notifications/page.tsx:93-107 | the same rule for marking all |

## Left out

- Security.CsrfProtection: the session's `csrfToken` is an input; no route in this model sets it (the frontend asks for `/auth/csrf-token`, which the auth routes here do not define), so with the session as the server leaves it no state-changing request outside `/api/auth/` passes.
- Authentication middleware (`authenticateToken`, `requireAdmin`): `backend/src/middleware/auth.ts` is not part of this model; the caller is a `Principal` parameter and the admin routes are modelled for an admin caller.
- Realtime broadcasts (`io.emit`) and sockets: a network publication to connected clients with no state the handlers read.
- Rate limiters, `preventSQLInjection`, the express-validator chains and `handleValidationErrors`: library wrappers and regular expressions whose `/g` state makes them no simple predicate.
- The regular expressions of `sanitizeString`: the string rewrite is a parameter `clean`; only the shape of sanitisation is modelled.
- Floating point: the resolution rate, `formatFileSize`, and percentages.
- Dates: Intl formatting and `debounce`; timestamps are integers and the clock a parameter.
- Concurrency: the check-then-write races in signing and in workshop registration; handlers run one at a time.
- The file system: directories, unlinking old photos and multer's disk storage.
- multer: every file is taken to arrive under the route's own field name (a file under another name is also "Unexpected field"); a refusal is the error handler's 500 with multer's message, whose development-only stack is not shown; `MAX_FILE_SIZE` is a size in bytes, one that `parseInt` reads as NaN is not modelled; the text fields arriving beside the files are not limited.
- Admin.TrendRows: the six-month cutoff comes from the clock and the month key `toISOString().slice(0, 7)` is a parameter `monthOf`; calendar arithmetic is not modelled, and the cases reach the fold in the order the query returns them.
- bcrypt, jsonwebtoken and uuid: hashing, password comparison, token signing and fresh ids are parameters; the secret and expiry are not modelled.
- Paging windows: `skip`/`take` and the sort order cut a listing to one page; the model states the matching set, the page count and which paging and sort arguments the query layer refuses, and the page as some window of it. A query value given twice (an array) is not modelled; each is a single string.
- The database schema is not part of this model: the columns a case can be sorted by are taken as its fields in `frontend/types/index.ts:23-42` plus `plaintiffId` and `defendantId`, and the resource types as the list in `backend/src/middleware/validation.ts:142`.
- A negative `take` is taken as accepted, as Prisma documents it (it reads backwards); only a negative skip is refused.
- Case-insensitive search maps only ASCII letters; other case mappings are not modelled.
- Auth.Login: the model picks any user with the email; it promises a unique answer only when emails are unique, which the table's key ensures.
- The user-listing routes `GET /workshops/user/registrations` and `GET /resources/user/progress`, and the agreement templates routes: plain reads with no rule. The template table itself is modelled only as the set of template ids (`Tables.templates`), which `CreateSpec` checks as a foreign key and no modelled handler writes.
- Defaults the database schema supplies are taken as: a resource unpublished, a workshop active, a user a USER and unverified.
- The age field is taken as an integer; a missing body field is a blank string.
- When a row breaks several constraints at once, which one Prisma reports is not modelled.
- A deleted resource's progress rows are not modelled.
- `setHeader` matches header names exactly; HTTP's case-insensitivity of names is not modelled.
- preventParameterPollution: an empty array leaves the key without a value (JavaScript's `undefined`), modelled as the key removed.
- AdminCasesPage filters: `limit` is kept as a number rather than the option's text.
- `cases.ts:4` imports `validateCaseRegistration`, which `validation.ts` does not export; the route is modelled without that middleware.
- The notifications page fetches `/notifications` paths the server does not mount (only `/api/...` routes exist); the model takes each fetch's outcome as a parameter and does not model the server side of those calls.
- The notifications page's button labels and empty-state texts are not modelled.
- RegisterPage.SchemaValid: yup's email test is a parameter `isEmail`; yup's lengths count UTF-16 units, modelled as characters; the schema's messages are not modelled, only whether each field is valid.
- Validation.FileVerdict, Validation.NameLengthBound: `originalname.length > 255` counts UTF-16 code units, modelled as characters, so a name of astral-plane characters reaches the limit at half as many characters in JavaScript as in the model.
- The registration form's render for an unverified account, and `user?.isVerified` taken as a boolean.
- The uncovered mediation transitions the admin page posts to (contact, response, start mediation, resolve) have no handlers in the backend and are not modelled.

## Findings

| source | as written | input that shows it | evidently intended | confidence | as-written member | corrected member |
|---|---|---|---|---|---|---|
| backend/src/routes/workshops.ts:216-221 | the cancellation notice fires when the stored workshop is active and the request's `isActive` is falsy, and names the request's `title` | an update of an active workshop with only `{ description }`: it stays active, yet every registrant is told "Workshop \"undefined\" has been cancelled" | notify exactly when the update takes an active workshop to inactive, under its stored title | high, not executed | Workshops.OmittedIsActiveCancels (Workshops.UpdateSpecAsWritten) | Workshops.NoticeOnlyOnCancellation (Workshops.UpdateSpec) |
| frontend/app/admin/cases/page.tsx:187-193 | `page: 1` follows `[key]: value` in the object literal, so it overrides a page change | pressing Next on page 1 of three pages calls `handleFilterChange('page', '2')` and the list stays on page 1 | reset to page 1 on filter changes only, go to the requested page otherwise | high, not executed | AdminCasesPage.PagerStuckOnFirstPage (AdminCasesPage.FilterChangeAsWritten) | AdminCasesPage.PagerReachesPage (AdminCasesPage.FilterChange) |
| backend/src/routes/auth.ts:136-154 | the user lookup passes both `include` and `select`, which Prisma rejects, and the `catch` answers "Invalid token" | a valid token whose user exists gets 401 "Invalid token" | the user's public view is returned | medium, not executed | Auth.ValidTokenRefusedAsWritten (Auth.VerifySpecAsWritten) | Auth.VerifyFailures (Auth.VerifySpec) |
