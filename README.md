# AL-MANSHURIYAH school website: the data core, its REST API and four interactive sections

This project models the back end of the AL-MANSHURIYAH school site and four of its interactive
front-end sections:

- **the six tables** (`users`, `contact_messages`, `news_articles`, `student_registrations`,
  `alumni`, `academic_events`) with their nullability and column defaults (`schema.dfy`);
- **request validation** by the insert schemas, their `.partial()` forms and the stricter
  contact form, which trims fields and checks minimum lengths and the e-mail format
  (`insert_schemas.dfy`);
- **`DatabaseStorage`**: one object holding the six tables as maps keyed by id plus a fresh-id
  supply, with every create, get, list, partial-update, status-update and delete operation.
  Its invariant is kept by every write: ids are below the supply and match their keys,
  usernames are unique, and a published article has a publication time (`storage.dfy`);
- **the route handlers**: the `requireAuth` session gate, register/login/logout/me, and each
  table's public and protected endpoints. Each handler is given as the response it sends (status
  code and JSON payload) and the storage writes it makes (`routes.dfy`);
- **the facilities slideshow** (`slideshow.dfy`), **the news section** (`news_section.dfy`),
  **the photo gallery** (`gallery.dfy`) and **the teacher directory** (`teacher_staff.dfy`),
  each as its component state with the filters and derived lists it renders.

`wrappers.dfy` holds the `Option` type. `collections.dfy` holds the sequence operations the
queries and filters share: `filter`, `slice(0, k)` and `ORDER BY`. `ORDER BY` is a stable
insertion sort on one key.

Modelling choices:
- An id is a natural number drawn from a counter that only grows, so an id is never reused.
  This stands in for `gen_random_uuid()`.
- Timestamps are values of an abstract clock, passed as `now`.
- Password hashing and comparison (bcrypt) and the e-mail pattern are function parameters.
- A nullable column is an `Option`. An SQL `column = value` filter never matches `NULL`, and a
  JavaScript truthiness test treats `null` as false, so "published" means `published == Some(true)`.
- A payload key is either left out (`Omitted`) or given (`Supplied`). For a nullable column the
  given value may be an explicit `null`.
- Every handler catches whatever the storage layer throws and answers 500 with a fixed message.
  A driver failure is the handler's `fails` parameter: when it is set the handler answers that 500
  and writes nothing.
- zod's date rule on `eventDate` is the `asDate` parameter: the instant a body value denotes, or
  None. On a body decoded from JSON it is `InsertSchemas.JsonDate`, which accepts nothing.
- The `integer` column `graduationYear` holds a 32-bit value. Validation refuses a number outside
  [-2147483648, 2147483647] with a 400, as the schema generated for an `integer` column checks it.

Behaviour of the code worth knowing:
- `publishedAt` is stamped whenever an update carries `published: true`, even on an article that
  is already published (`Storage.RepublishMovesTime`). An update carrying `published: false`
  leaves the old stamp in place (`Storage.UnpublishKeepsTime`). So only one direction holds:
  published implies a publication time. A set-on-transition reading, where the time is stamped
  only when an article goes from unpublished to published, does not match the code; the model
  follows the code.
- `role || "admin"` turns an empty role into "admin" as well as a missing one.
- `notes || undefined` leaves the stored notes unchanged when the new note is empty.
- No event can be created through the API. `eventDate` is a `timestamp` column, so the generated
  schema checks it with zod's date rule, which accepts only a JavaScript `Date` object. A body
  parsed from JSON never holds one, and nothing converts the value first. POST /api/events
  therefore always answers 400 "Data tidak valid", and PUT /api/events/:id does too whenever the
  body carries `eventDate` (`InsertSchemas.JsonEventDateRejected`).
- `?published=false`, `?approved=false` and `?public=false` filter nothing. Only the exact text
  `true` sets a filter.
- A PUT on an id that does not exist still answers 200 with a success message and no entity.
  A DELETE answers success whether or not the row existed.
- The news section computes `recentArticles` but never renders it.

## Model

| member | source | states |
|---|---|---|
| Schema.UserRow | shared/schema.ts:7-13 | a new user row holds the given username and password; the role is the given one, or "admin" when left out |
| Schema.ContactMessageRow | shared/schema.ts:15-23 | a new message row copies the four fields and starts with status "unread" |
| Schema.NewsArticleRow | shared/schema.ts:25-36 | `featured` and `published` default to false when left out and take the given value (possibly null) otherwise; `createdAt` and `updatedAt` both get the insert time |
| Schema.StudentRegistrationRow | shared/schema.ts:38-54 | a new registration copies the nine required columns, stores `documents` when given and null otherwise, starts "pending" with no notes, and is stamped with the insert time |
| Schema.AlumniRow | shared/schema.ts:56-72 | a new alumni row copies name, year and program, stores each optional column when given and null otherwise, and is neither featured nor approved, whatever the payload |
| Schema.AcademicEventRow | shared/schema.ts:74-85 | a new event copies title, date and category, stores description, time and location when given and null otherwise; `isPublic` defaults to true when left out and takes the given value otherwise |
| InsertSchemas.ParseUser | shared/schema.ts:93-97 | a body is accepted exactly when username and password are strings and role is absent or a string; the payload carries those two strings and the role exactly as given or left out; rejection carries at least one issue |
| InsertSchemas.UserReadsOnlyPickedKeys | shared/schema.ts:93-97 | keys outside username/password/role cannot change the outcome |
| InsertSchemas.TrimRemovesOnlyEnds | server/routes.ts:128-131 | the trimmed string is a slice of the input with only white space before and after it |
| InsertSchemas.Trim | server/routes.ts:128-131 | the trimmed string is no longer than the input and neither starts nor ends with JavaScript white space |
| InsertSchemas.TrimKeepsTrimmed | server/routes.ts:128-131 | a string without white space at either end is left unchanged |
| InsertSchemas.TrimIdempotent | server/routes.ts:128-131 | trimming twice is trimming once |
| InsertSchemas.ParseContactForm | server/routes.ts:127-132 | accepted exactly when the trimmed name has at least 2, subject at least 3 and message at least 10 characters and the trimmed e-mail passes the e-mail check; the stored fields are the trimmed ones; a rejection lists one to four issues |
| InsertSchemas.ContactMessageBoundary | server/routes.ts:131 | with the other fields valid, a message is refused exactly when it has fewer than ten characters, and then with the "Pesan terlalu singkat" issue alone |
| InsertSchemas.ContactReadsOnlyPickedKeys | shared/schema.ts:99-104 | keys outside name/email/subject/message cannot change the outcome |
| InsertSchemas.ParseNewsArticle | shared/schema.ts:106-113 | accepted exactly when title, content, excerpt and author are strings and `featured`/`published` are absent, null or boolean; the payload carries each field as given, with absent flags left out |
| InsertSchemas.NewsReadsOnlyPickedKeys | shared/schema.ts:106-113 | `publishedAt` is not picked, and keys outside the picked six cannot change the outcome |
| InsertSchemas.ParseNewsPatch | server/routes.ts:245 | under `.partial()` accepted exactly when every present key has its column's type; each key is left out exactly when the body lacks it and carried over otherwise |
| InsertSchemas.ParseStudentRegistration | shared/schema.ts:115-126 | accepted exactly when the nine required keys are strings and `documents` is absent, null or a string; the payload carries each field as given |
| InsertSchemas.RegistrationReadsOnlyPickedKeys | shared/schema.ts:115-126 | `status` and `notes` are not picked, and keys outside the picked ten cannot change the outcome |
| InsertSchemas.ParseAlumni | shared/schema.ts:128-139 | accepted exactly when `fullName` and `program` are strings, `graduationYear` a number within PostgreSQL's 32-bit `integer` range and the seven optional keys absent, null or strings; the payload carries each field as given |
| InsertSchemas.AlumniReadsOnlyPickedKeys | shared/schema.ts:128-139 | `approved` and `featured` are not picked, and any key outside the picked ten cannot change the outcome |
| InsertSchemas.ParseAlumniPatch | server/routes.ts:408 | under `.partial()` accepted exactly when every present key has its column's type, a `graduationYear` within the 32-bit range; each key is left out exactly when the body lacks it and carried over otherwise |
| InsertSchemas.RangeIssue | shared/schema.ts:59 | a number is accepted for the `integer` column exactly when it lies in [-2147483648, 2147483647]; below it the issue is `too_small` with the lower bound, above it `too_big` with the upper bound |
| InsertSchemas.OutOfRangeYearRejected | shared/schema.ts:59 | a `graduationYear` outside the 32-bit range makes both alumni schemas reject the body, with the broken bound among the issues |
| InsertSchemas.ParseEvent | shared/schema.ts:141-149 | accepted exactly when title and category are strings, `eventDate` is a date, the three optional texts are absent, null or strings and `isPublic` absent, null or boolean; the payload carries each field as given |
| InsertSchemas.ParseEventPatch | server/routes.ts:503 | under `.partial()` accepted exactly when every present key has its column's type; each key is left out exactly when the body lacks it and carried over otherwise |
| InsertSchemas.JsonEventDateRejected | shared/schema.ts:78 | under the date rule for JSON values, the event schema rejects every body, and the partial schema rejects every body that carries `eventDate` |
| InsertSchemas.EventReadsOnlyPickedKeys | shared/schema.ts:141-149 | keys outside the picked seven cannot change the outcome |
| Storage.Rows | server/storage.ts:98-104 | a table's row list holds only stored rows, every stored row below the id bound, and none twice |
| Storage.AlumniWhereIsConjunction | server/storage.ts:203-221 | the four branches of `getAlumni` filter by the conjunction of whichever flags are given |
| Storage.QueryNews | server/storage.ts:125-134 | each matching row as often as in the table, no other row, newest first |
| Storage.QueryAlumni | server/storage.ts:203-221 | each row matching the given flags as often as in the table, no other row, by graduation year descending |
| Storage.QueryEvents | server/storage.ts:265-275 | each row matching the optional `isPublic` filter as often as in the table, no other row, by event date ascending |
| Storage.NewestMessagesFirst | server/storage.ts:98-104 | a reordering of the given messages, newest first |
| Storage.NewestRegistrationsFirst | server/storage.ts:167-173 | a reordering of the given registrations, newest first |
| Storage.RoleOrAdmin | server/storage.ts:80 | a non-empty given role is kept; an absent or empty one becomes "admin"; the result is never empty |
| Storage.CreatedUser | server/storage.ts:75-84 | the stored user keeps username and password, with the role rule above |
| Storage.CreatedNewsArticle | server/storage.ts:114-123 | a new article has a publication time exactly when it is published, and that time is the creation time |
| Storage.ApplyNewsPatch | server/storage.ts:141-152 | each column left out is kept and each given one is stored; `updatedAt` is the update time; `publishedAt` becomes the update time exactly when the patch carries `published: true`, otherwise it is kept; published-implies-dated is preserved |
| Storage.UnpublishKeepsTime | server/storage.ts:147 | unpublishing leaves the old publication time in place |
| Storage.RepublishMovesTime | server/storage.ts:147 | re-sending `published: true` to a published article moves its publication time |
| Storage.PublishDraft | server/storage.ts:114-152 | a draft has no publication time and is outside the published filter; publishing it stamps the update time and brings it in |
| Storage.ApplyAlumniPatch | server/storage.ts:228-238 | each column left out is kept and each given one is stored; `approved` and `featured` never change; `updatedAt` is the update time |
| Storage.ApplyEventPatch | server/storage.ts:282-292 | each column left out is kept and each given one is stored; `updatedAt` is the update time |
| Storage.WithRegistrationStatus | server/storage.ts:183-192 | status and update time are set; notes change only for a non-empty note; no other column changes |
| Storage.WithAlumniStatus | server/storage.ts:240-254 | `approved` is always written; `featured` only when given; no other column changes |
| Storage.DatabaseStorage.constructor | server/storage.ts:63 | the store starts with six empty tables |
| Storage.DatabaseStorage.GetUser | server/storage.ts:65-68 | found exactly when the id is stored, and then that row |
| Storage.DatabaseStorage.GetUserByUsername | server/storage.ts:70-73 | found exactly when some stored user has that username, and then a stored row with it |
| Storage.DatabaseStorage.CreateUser | server/storage.ts:75-84 | a taken username is refused with nothing written; otherwise the new row is stored under a fresh id and the invariant, including unique usernames, is kept |
| Storage.DatabaseStorage.CreateContactMessage | server/storage.ts:87-96 | the new unread message is stored under a fresh id and nothing else changes |
| Storage.DatabaseStorage.GetContactMessages | server/storage.ts:98-104 | every stored message once, newest first |
| Storage.DatabaseStorage.UpdateContactMessageStatus | server/storage.ts:106-111 | only the status of that row changes; a missing id changes nothing |
| Storage.DatabaseStorage.CreateNewsArticle | server/storage.ts:114-123 | the new article, dated exactly when published, is stored under a fresh id |
| Storage.DatabaseStorage.GetNewsArticles | server/storage.ts:125-134 | exactly the stored articles matching the filter, each once, newest first |
| Storage.DatabaseStorage.GetNewsArticle | server/storage.ts:136-139 | found exactly when stored |
| Storage.DatabaseStorage.UpdateNewsArticle | server/storage.ts:141-152 | a missing id returns nothing and changes nothing; otherwise the row becomes the patched row, which is returned |
| Storage.DatabaseStorage.DeleteNewsArticle | server/storage.ts:154-156 | the row is gone, every other row is kept, and a missing id changes nothing |
| Storage.DatabaseStorage.CreateStudentRegistration | server/storage.ts:159-165 | the new pending registration is stored under a fresh id |
| Storage.DatabaseStorage.GetStudentRegistrations | server/storage.ts:167-173 | every stored registration once, newest first |
| Storage.DatabaseStorage.GetStudentRegistration | server/storage.ts:175-181 | found exactly when stored |
| Storage.DatabaseStorage.UpdateStudentRegistrationStatus | server/storage.ts:183-192 | the row gets the new status, the notes rule and the update time; a missing id changes nothing |
| Storage.DatabaseStorage.CreateAlumni | server/storage.ts:195-201 | the new row, unapproved and unfeatured, is stored under a fresh id |
| Storage.DatabaseStorage.GetAlumni | server/storage.ts:203-221 | exactly the stored rows matching the flags, each once, by graduation year descending |
| Storage.DatabaseStorage.GetAlumniById | server/storage.ts:223-226 | found exactly when stored |
| Storage.DatabaseStorage.UpdateAlumni | server/storage.ts:228-238 | a missing id returns nothing; otherwise the patched row is stored and returned |
| Storage.DatabaseStorage.UpdateAlumniStatus | server/storage.ts:240-254 | the row gets the approval rule; a missing id changes nothing |
| Storage.DatabaseStorage.CreateAcademicEvent | server/storage.ts:257-263 | the new event is stored under a fresh id |
| Storage.DatabaseStorage.GetAcademicEvents | server/storage.ts:265-275 | exactly the stored events matching the filter, each once, by date ascending |
| Storage.DatabaseStorage.GetAcademicEvent | server/storage.ts:277-280 | found exactly when stored |
| Storage.DatabaseStorage.UpdateAcademicEvent | server/storage.ts:282-292 | a missing id returns nothing; otherwise the patched row is stored and returned |
| Storage.DatabaseStorage.DeleteAcademicEvent | server/storage.ts:294-296 | the row is gone, every other row is kept |
| Routes.Authenticated | server/routes.ts:22-28 | a request passes the gate exactly when the session holds a user id; otherwise each protected handler's contract answers 401 "Authentication required" and writes nothing |
| Routes.View | server/routes.ts:53 | the user view carries id, username and role only |
| Routes.QueryFlag | server/routes.ts:190 | a filter is set exactly for the text "true", and it is never set to false |
| Routes.FalseFlagFiltersNothing | server/routes.ts:190 | any other query value lists the same rows as no parameter |
| Routes.Session.constructor | server/routes.ts:15-19 | a new session has no user |
| Routes.Register | server/routes.ts:32-69 | invalid body: 400 with the issues and nothing written; a driver failure: 500 "Terjadi kesalahan internal server" and nothing written; taken username: 400 "Username sudah digunakan" and nothing written; otherwise the user is stored with the hashed password and the reply holds only id, username and role |
| Routes.Login | server/routes.ts:71-95 | an unknown user and a wrong password get the same 401 and leave the session as it was; a driver failure answers 500 with the session unchanged; a match stores the user id in the session |
| Routes.Logout | server/routes.ts:97-101 | the session no longer names a user, and the reply is success |
| Routes.Me | server/routes.ts:103-124 | no session user: 401 "Authentication required"; a driver failure: 500; a user no longer stored: 404; otherwise 200 with that user's view |
| Routes.LoginThenMe | server/routes.ts:71-124 | after a successful login, "who am I" answers 200 with the same user; a failed login is 401 and leaves the session unchanged |
| Routes.PostContact | server/routes.ts:135-159 | invalid form: 400 with the issues and nothing stored; a driver failure: 500 and nothing stored; otherwise the trimmed message is stored unread and its id returned |
| Routes.ListContactMessages | server/routes.ts:161-171 | 401 exactly without a session; a driver failure: 500 "Gagal mengambil data pesan"; otherwise every stored message once, newest first |
| Routes.PutContactStatus | server/routes.ts:173-185 | without a session: 401 and no change; a driver failure: 500 and no change; otherwise success whether or not the id exists, with only that row's status changed |
| Routes.ListNews | server/routes.ts:188-199 | a driver failure: 500 "Gagal mengambil berita"; otherwise with `?published=true` exactly the published articles, otherwise all, each once, newest first |
| Routes.GetNews | server/routes.ts:201-215 | a driver failure: 500; otherwise 404 exactly when the id is not stored, else that article |
| Routes.PostNews | server/routes.ts:217-240 | 401 without a session, 400 on an invalid body, 500 on a driver failure, all with nothing stored; otherwise the new article is stored and returned |
| Routes.PutNews | server/routes.ts:242-266 | 401, 400 or 500 with no change; a missing id answers success with no article; otherwise the patched article is stored and returned |
| Routes.DeleteNews | server/routes.ts:268-279 | 401 without a session and 500 on a driver failure, both with no change; otherwise success, and the row is gone |
| Routes.PostRegistration | server/routes.ts:282-305 | invalid body: 400, driver failure: 500, both with nothing stored; otherwise a pending registration without notes is stored and returned |
| Routes.ListRegistrations | server/routes.ts:307-317 | 401 exactly without a session; a driver failure: 500; otherwise every stored registration once, newest first |
| Routes.GetRegistration | server/routes.ts:319-333 | 401 without a session, 500 on a driver failure, 404 for a missing id, else that registration |
| Routes.PutRegistrationStatus | server/routes.ts:335-347 | 401 or 500 with no change, or success with the status rule applied to an existing row |
| Routes.ListAlumni | server/routes.ts:350-362 | a driver failure: 500; otherwise exactly the stored alumni satisfying each flag given as "true", each once, by graduation year descending |
| Routes.GetAlumnus | server/routes.ts:364-378 | a driver failure: 500; otherwise 404 exactly when the id is not stored, else that row |
| Routes.PostAlumni | server/routes.ts:380-403 | invalid body, a `graduationYear` outside the 32-bit range among them: 400, driver failure: 500, both with nothing stored; otherwise the submission is stored unapproved and unfeatured whatever the body says |
| Routes.PutAlumni | server/routes.ts:405-429 | 401, 400 (a `graduationYear` outside the 32-bit range among the causes) or 500 with no change; a missing id answers success with nothing; otherwise the patched row is stored, with approval and featuring untouched |
| Routes.PutAlumniStatus | server/routes.ts:431-443 | 401 or 500 with no change, or success with the approval rule applied to an existing row |
| Routes.ListEvents | server/routes.ts:446-457 | a driver failure: 500; otherwise with `?public=true` exactly the public events, otherwise all, each once, by date ascending |
| Routes.GetEvent | server/routes.ts:459-473 | a driver failure: 500; otherwise 404 exactly when the id is not stored, else that event |
| Routes.PostEvent | server/routes.ts:475-498 | 401 without a session, 400 when the body fails the event schema, 500 on a driver failure, all with nothing stored; otherwise the parsed event is stored and returned. When no value passes the date rule, as with JSON bodies, the answer to a signed-in request is always 400 with nothing stored |
| Routes.PutEvent | server/routes.ts:500-524 | 401, 400 or 500 with no change, and always 400 when the body carries `eventDate` and no value passes the date rule; a missing id answers success with no event; otherwise the event patched with the parsed body is stored and returned |
| Routes.DeleteEvent | server/routes.ts:526-537 | 401 without a session and 500 on a driver failure, both with no change; otherwise success, and the row is gone |
| GallerySlideshow.Next | client/src/components/gallery-slideshow.tsx:53-55 | forward one slide, wrapping from the last to the first |
| GallerySlideshow.Prev | client/src/components/gallery-slideshow.tsx:57-59 | back one slide, wrapping from the first to the last |
| GallerySlideshow.PrevUndoesNext | client/src/components/gallery-slideshow.tsx:53-59 | "previous" after "next" returns to the same slide |
| GallerySlideshow.NextUndoesPrev | client/src/components/gallery-slideshow.tsx:53-59 | "next" after "previous" returns to the same slide |
| GallerySlideshow.AdvanceIsModular | client/src/components/gallery-slideshow.tsx:43-55 | k forward steps from slide i land on slide (i + k) mod 5 |
| GallerySlideshow.FullCycle | client/src/components/gallery-slideshow.tsx:43-55 | five forward steps come back to the start |
| GallerySlideshow.EverySlideReachable | client/src/components/gallery-slideshow.tsx:43-55 | any slide is reached from any other in fewer than five forward steps |
| GallerySlideshow.Slideshow.constructor | client/src/components/gallery-slideshow.tsx:40-41 | the show starts on the first slide, playing |
| GallerySlideshow.Slideshow.Current | client/src/components/gallery-slideshow.tsx:97-117 | the slide on screen is the one at `currentSlide` |
| GallerySlideshow.Slideshow.NextSlide | client/src/components/gallery-slideshow.tsx:53-55 | the slide moves forward with wrap-around and stays in range |
| GallerySlideshow.Slideshow.PrevSlide | client/src/components/gallery-slideshow.tsx:57-59 | the slide moves back with wrap-around and stays in range |
| GallerySlideshow.Slideshow.TogglePlay | client/src/components/gallery-slideshow.tsx:61-63 | playing flips |
| GallerySlideshow.Slideshow.Tick | client/src/components/gallery-slideshow.tsx:43-51 | a timer tick moves forward only while playing, and a paused show stays on its slide |
| GallerySlideshow.Slideshow.Select | client/src/components/gallery-slideshow.tsx:151-170 | an indicator or thumbnail shows exactly its slide |
| NewsAnnouncements.FilteredArticles | client/src/components/news-announcements.tsx:45-51 | the "featured" tab keeps exactly the featured articles in order; every other tab shows the list unchanged |
| NewsAnnouncements.FeaturedArticles | client/src/components/news-announcements.tsx:53 | the first three featured articles in list order, or all of them when fewer |
| NewsAnnouncements.RecentArticles | client/src/components/news-announcements.tsx:54 | the first six articles, or all when there are fewer |
| NewsAnnouncements.TopicTabsShowAll | client/src/components/news-announcements.tsx:24-51 | the "academic", "achievement" and "event" tabs show the whole list |
| NewsAnnouncements.Toggle | client/src/components/news-announcements.tsx:149 | clicking the open article closes it; clicking any other opens that one |
| NewsAnnouncements.ToggleTwice | client/src/components/news-announcements.tsx:149 | two clicks on the same article return to the state before |
| NewsAnnouncements.FindArticle | client/src/components/news-announcements.tsx:276 | the found article is the first in the list with that id; nothing is found exactly when no article has it |
| NewsAnnouncements.Fetched | client/src/components/news-announcements.tsx:36-43 | the section receives exactly the published articles, each once, newest first |
| NewsAnnouncements.OnlyPublishedShown | client/src/components/news-announcements.tsx:36-54 | no tab and no featured block ever shows an unpublished article, and the "all" tab shows every published one |
| NewsAnnouncements.NewsSection.constructor | client/src/components/news-announcements.tsx:33-34 | the section starts on "all" with no article open |
| NewsAnnouncements.NewsSection.SelectCategory | client/src/components/news-announcements.tsx:175 | the tab becomes the clicked one |
| NewsAnnouncements.NewsSection.ClickRead | client/src/components/news-announcements.tsx:244 | the open article follows the toggle rule |
| NewsAnnouncements.NewsSection.Close | client/src/components/news-announcements.tsx:265 | no article is open |
| NewsAnnouncements.NewsSection.Overlay | client/src/components/news-announcements.tsx:275-278 | empty when nothing is open; otherwise empty exactly when no listed article has the open id, and else the first listed article with it |
| Gallery.FilteredItems | client/src/components/gallery.tsx:74-76 | "all" shows every item; any other filter shows exactly the items of that category, in order |
| Gallery.CategoriesPartition | client/src/components/gallery.tsx:74-76 | when every item is in one of three distinct categories, the three filtered views together hold every item once |
| Gallery.GalleryIsPartitioned | client/src/components/gallery.tsx:5-76 | every gallery item belongs to one of the three category buttons, and those buttons split the eight items between them |
| Gallery.GallerySection.constructor | client/src/components/gallery.tsx:72 | the gallery starts on "all" |
| Gallery.GallerySection.SetFilter | client/src/components/gallery.tsx:108 | the filter becomes the clicked button |
| Gallery.GallerySection.Shown | client/src/components/gallery.tsx:74-76 | every gallery item under "all"; under a category exactly its items; always in gallery order |
| TeacherStaff.FilteredTeachers | client/src/components/teacher-staff.tsx:99-101 | "all" shows everyone; any other tab shows exactly that category's profiles, in directory order |
| TeacherStaff.CategoriesPartition | client/src/components/teacher-staff.tsx:99-101 | when every profile is in one of three distinct categories, the three filtered views together hold every profile once |
| TeacherStaff.OneHeadOfSchool | client/src/components/teacher-staff.tsx:14-101 | the "kepala" tab shows exactly one profile, the head of school |
| TeacherStaff.DirectoryIsPartitioned | client/src/components/teacher-staff.tsx:7-101 | every profile belongs to one of the three category tabs, and those tabs split the six profiles between them |
| TeacherStaff.TeacherStaffSection.constructor | client/src/components/teacher-staff.tsx:96-97 | the directory starts on "all" with no profile selected |
| TeacherStaff.TeacherStaffSection.SelectCategory | client/src/components/teacher-staff.tsx:136 | the tab becomes the clicked one |
| TeacherStaff.TeacherStaffSection.ViewProfile | client/src/components/teacher-staff.tsx:203 | "Lihat Profil" selects that teacher and leaves the tab as it was |
| TeacherStaff.TeacherStaffSection.Shown | client/src/components/teacher-staff.tsx:99-101 | every profile under "all"; under a category exactly its profiles; always in directory order |

## Left out

- The database engine (PostgreSQL through drizzle): tables are in-memory maps. A driver error is only the `fails` flag, taken before any write; an error part-way through a write is not modelled.
- `gen_random_uuid()`: ids come from a counter. The model promises freshness, not randomness or the uuid text format.
- bcrypt's algorithm and cost factor: hashing and comparison are parameters.
- The clock: `new Date()` and `defaultNow()` are the `now` parameter.
- zod's e-mail pattern is the `isEmail` parameter.
- zod's wording for type errors is one fixed message. Its `.min` counts UTF-16 code units, while the model counts characters.
- JSON numbers are integers in the model. A non-integer `graduationYear` is not modelled.
- The package versions are not part of this model. A schema generator that does not check the 32-bit range would leave an out-of-range `graduationYear` to PostgreSQL, which answers 500 instead of 400; either way nothing is stored.
- Routes.PostEvent, Routes.PutEvent: the date rule stays a parameter, so the success branches also describe a caller that hands the handler a `Date` object. With the JSON rule `JsonDate` those branches are unreachable for creation.
- Express, cookies and the session store: a session is one object holding an optional user id. Concurrent requests are not modelled.
- Routes.Me: the handler's own second check for a missing session id is not modelled. It cannot fire once `requireAuth` has passed.
- Routes.PutContactStatus, Routes.PutRegistrationStatus, Routes.PutAlumniStatus: these take typed arguments. Status bodies that are missing or not strings are not modelled.
- Routes.Login: a body whose username or password is not a string is not modelled.
- Query parameters given as arrays are not modelled. A flag is an optional string.
- Storage.DatabaseStorage.CreateUser: the unique-violation outcome covers the `unique()` constraint. Two registrations racing between the check and the insert are not modelled, since requests run one at a time here.
- The health endpoint: it only reports the clock.
- The rest of the site is not part of this model: the contact form component, the other sections, navigation, `App.tsx`, the seed data and the serverless wrapper.
- Animations, images, icons and layout in the four modelled components.
- The teacher profiles keep id, name, position and category. The other fields are display-only.
