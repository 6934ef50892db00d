/** `DatabaseStorage`: the six tables as keyed maps held by one object, with create, get, list,
    partial-update, status-update and delete operations. */
module Storage {
  import opened Wrappers
  import opened Schema
  import opened Collections

  /** The rows of a table in id order, visiting keys below `bound`; `key` reads a row's id. */
  function Rows<R(==,!new)>(m: map<Id, R>, bound: nat, key: R -> Id): (r: seq<R>)
    requires forall k :: k in m ==> key(m[k]) == k
    ensures forall x :: x in r ==> x in m.Values && key(x) < bound
    ensures forall k :: k in m && k < bound ==> m[k] in r
    ensures Distinct(r)
  {
    if bound == 0 then []
    else
      var r := Rows(m, bound - 1, key);
      if bound - 1 in m then
        var last := m[bound - 1];
        assert last !in r;
        assert forall x :: multiset(r + [last])[x] == multiset(r)[x] + multiset([last])[x];
        r + [last]
      else r
  }

  function Lookup<R>(m: map<Id, R>, id: Id): (r: Option<R>)
    ensures r.Some? <==> id in m
    ensures r.Some? ==> r.value == m[id]
  {
    if id in m then Some(m[id]) else None
  }

  /** The first row of `rows` with this username. */
  function FindByUsername(rows: seq<User>, username: string): (r: Option<User>)
    ensures r.Some? ==> r.value in rows && r.value.username == username
    ensures r.None? ==> forall u :: u in rows ==> u.username != username
  {
    if rows == [] then None
    else if rows[0].username == username then Some(rows[0])
    else FindByUsername(rows[1..], username)
  }

  ghost predicate UsernameTaken(users: map<Id, User>, username: string) {
    exists k :: k in users && users[k].username == username
  }

  // Ranks for ORDER BY: a descending order is ascending in the negated key.

  function CreatedDesc(m: ContactMessage): int { -m.createdAt }
  function NewsCreatedDesc(a: NewsArticle): int { -a.createdAt }
  function RegistrationCreatedDesc(r: StudentRegistration): int { -r.createdAt }
  function GraduationYearDesc(a: Alumni): int { -a.graduationYear }
  function EventDateAsc(e: AcademicEvent): int { e.eventDate }

  // WHERE clauses. SQL equality with a NULL column is never true, hence `== Some(...)`.

  /** `getNewsArticles(published)`: no condition when `published` is undefined. */
  predicate NewsWhere(a: NewsArticle, published: Option<bool>) {
    published.None? || a.published == Some(published.value)
  }

  /** `getAlumni(approved, featured)`, branch by branch as written. */
  predicate AlumniWhere(a: Alumni, approved: Option<bool>, featured: Option<bool>) {
    if approved.Some? && featured.Some? then
      a.approved == Some(approved.value) && a.featured == Some(featured.value)
    else if approved.Some? then a.approved == Some(approved.value)
    else if featured.Some? then a.featured == Some(featured.value)
    else true
  }

  /** `getAcademicEvents(isPublic)`. */
  predicate EventWhere(e: AcademicEvent, isPublic: Option<bool>) {
    isPublic.None? || e.isPublic == Some(isPublic.value)
  }

  /** The four branches of `getAlumni` amount to one conjunction of whichever flags are given. */
  lemma AlumniWhereIsConjunction(a: Alumni, approved: Option<bool>, featured: Option<bool>)
    ensures AlumniWhere(a, approved, featured) <==>
              (approved.None? || a.approved == Some(approved.value)) &&
              (featured.None? || a.featured == Some(featured.value))
  {
  }

  function QueryNews(rows: seq<NewsArticle>, published: Option<bool>): (r: seq<NewsArticle>)
    ensures forall a :: a in r ==> a in rows && NewsWhere(a, published)
    ensures forall a :: a in rows && NewsWhere(a, published) ==> a in r
    ensures forall i, j :: 0 <= i < j < |r| ==> r[i].createdAt >= r[j].createdAt
    ensures forall a :: multiset(r)[a] == if NewsWhere(a, published) then multiset(rows)[a] else 0
    ensures Distinct(rows) ==> Distinct(r)
  {
    var r := Select(rows, a => NewsWhere(a, published), NewsCreatedDesc);
    assert forall i, j :: 0 <= i < j < |r| ==> NewsCreatedDesc(r[i]) <= NewsCreatedDesc(r[j]);
    r
  }

  function QueryAlumni(rows: seq<Alumni>, approved: Option<bool>, featured: Option<bool>)
    : (r: seq<Alumni>)
    ensures forall a :: a in r ==> a in rows && AlumniWhere(a, approved, featured)
    ensures forall a :: a in rows && AlumniWhere(a, approved, featured) ==> a in r
    ensures forall i, j :: 0 <= i < j < |r| ==> r[i].graduationYear >= r[j].graduationYear
    ensures forall a :: multiset(r)[a] == if AlumniWhere(a, approved, featured) then multiset(rows)[a] else 0
    ensures Distinct(rows) ==> Distinct(r)
  {
    var r := Select(rows, a => AlumniWhere(a, approved, featured), GraduationYearDesc);
    assert forall i, j :: 0 <= i < j < |r| ==> GraduationYearDesc(r[i]) <= GraduationYearDesc(r[j]);
    r
  }

  function QueryEvents(rows: seq<AcademicEvent>, isPublic: Option<bool>): (r: seq<AcademicEvent>)
    ensures forall e :: e in r ==> e in rows && EventWhere(e, isPublic)
    ensures forall e :: e in rows && EventWhere(e, isPublic) ==> e in r
    ensures forall i, j :: 0 <= i < j < |r| ==> r[i].eventDate <= r[j].eventDate
    ensures forall e :: multiset(r)[e] == if EventWhere(e, isPublic) then multiset(rows)[e] else 0
    ensures Distinct(rows) ==> Distinct(r)
  {
    var r := Select(rows, e => EventWhere(e, isPublic), EventDateAsc);
    assert forall i, j :: 0 <= i < j < |r| ==> EventDateAsc(r[i]) <= EventDateAsc(r[j]);
    r
  }

  function NewestMessagesFirst(rows: seq<ContactMessage>): (r: seq<ContactMessage>)
    ensures multiset(r) == multiset(rows)
    ensures forall m :: m in r <==> m in rows
    ensures forall i, j :: 0 <= i < j < |r| ==> r[i].createdAt >= r[j].createdAt
  {
    var r := SortBy(rows, CreatedDesc);
    assert forall i, j :: 0 <= i < j < |r| ==> CreatedDesc(r[i]) <= CreatedDesc(r[j]);
    assert forall m :: m in r <==> m in multiset(rows);
    r
  }

  function NewestRegistrationsFirst(rows: seq<StudentRegistration>): (r: seq<StudentRegistration>)
    ensures multiset(r) == multiset(rows)
    ensures forall x :: x in r <==> x in rows
    ensures forall i, j :: 0 <= i < j < |r| ==> r[i].createdAt >= r[j].createdAt
  {
    var r := SortBy(rows, RegistrationCreatedDesc);
    assert forall i, j :: 0 <= i < j < |r| ==>
      RegistrationCreatedDesc(r[i]) <= RegistrationCreatedDesc(r[j]);
    assert forall x :: x in r <==> x in multiset(rows);
    r
  }

  // What the create methods store beyond the column defaults.

  /** `insertUser.role || "admin"`: an absent or empty role becomes "admin". */
  function RoleOrAdmin(role: Field<string>): (r: string)
    ensures r != ""
    ensures role.Supplied? && role.value != "" ==> r == role.value
    ensures role.Omitted? || role.value == "" ==> r == DefaultRole
  {
    if role.Supplied? && role.value != "" then role.value else DefaultRole
  }

  function CreatedUser(id: Id, ins: InsertUser, now: Time): (u: User)
    ensures u.id == id && u.username == ins.username && u.password == ins.password
    ensures u.role == (if ins.role.Supplied? && ins.role.value != "" then ins.role.value else "admin")
  {
    UserRow(id, ins.(role := Supplied(RoleOrAdmin(ins.role))), now)
  }

  /** `publishedAt: article.published ? new Date() : null`. */
  function CreatedNewsArticle(id: Id, ins: InsertNewsArticle, now: Time): (a: NewsArticle)
    ensures a.publishedAt.Some? <==> a.published == Some(true)
    ensures a.publishedAt.Some? ==> a.publishedAt == Some(now)
    ensures a.id == id && a.title == ins.title && a.createdAt == now
  {
    var publishedAt := if ins.published == Supplied(Some(true)) then Some(now) else None;
    NewsArticleRow(id, ins, publishedAt, now)
  }

  /** A published article carries a publication time: every write keeps this. */
  predicate PublishedIsDated(a: NewsArticle) {
    a.published == Some(true) ==> a.publishedAt.Some?
  }

  // Partial updates: `.set({...patch, updatedAt: new Date()})`; a key left out keeps its column.

  /** `updateNewsArticle`: also `publishedAt: article.published ? new Date() : undefined`. */
  function ApplyNewsPatch(a: NewsArticle, p: NewsPatch, now: Time): (r: NewsArticle)
    ensures r.id == a.id && r.createdAt == a.createdAt && r.updatedAt == now
    ensures p.title.Omitted? ==> r.title == a.title
    ensures p.title.Supplied? ==> r.title == p.title.value
    ensures p.content.Omitted? ==> r.content == a.content
    ensures p.content.Supplied? ==> r.content == p.content.value
    ensures p.excerpt.Omitted? ==> r.excerpt == a.excerpt
    ensures p.excerpt.Supplied? ==> r.excerpt == p.excerpt.value
    ensures p.author.Omitted? ==> r.author == a.author
    ensures p.author.Supplied? ==> r.author == p.author.value
    ensures p.featured.Omitted? ==> r.featured == a.featured
    ensures p.featured.Supplied? ==> r.featured == p.featured.value
    ensures p.published.Omitted? ==> r.published == a.published
    ensures p.published.Supplied? ==> r.published == p.published.value
    ensures p.published == Supplied(Some(true)) ==> r.publishedAt == Some(now)
    ensures p.published != Supplied(Some(true)) ==> r.publishedAt == a.publishedAt
    ensures PublishedIsDated(a) ==> PublishedIsDated(r)
  {
    NewsArticle(a.id, Or(p.title, a.title), Or(p.content, a.content), Or(p.excerpt, a.excerpt),
                Or(p.author, a.author), Or(p.featured, a.featured), Or(p.published, a.published),
                if p.published == Supplied(Some(true)) then Some(now) else a.publishedAt,
                a.createdAt, now)
  }

  /** Setting `published: false` leaves the old publication time in place. */
  lemma UnpublishKeepsTime(a: NewsArticle, now: Time)
    requires a.published == Some(true) && a.publishedAt.Some?
    ensures var p := NewsPatch(Omitted, Omitted, Omitted, Omitted, Omitted, Supplied(Some(false)));
            var r := ApplyNewsPatch(a, p, now);
            r.published == Some(false) && r.publishedAt == a.publishedAt && r.publishedAt.Some?
  {
  }

  /** Sending `published: true` again re-stamps an already published article. */
  lemma RepublishMovesTime(a: NewsArticle, p: NewsPatch, now: Time)
    requires a.published == Some(true) && a.publishedAt.Some? && a.publishedAt.value != now
    requires p.published == Supplied(Some(true))
    ensures ApplyNewsPatch(a, p, now).published == a.published
    ensures ApplyNewsPatch(a, p, now).publishedAt != a.publishedAt
  {
  }

  /** A draft has no publication time and is left out of the published list; publishing it
      stamps the update's time and brings it into that list. */
  lemma PublishDraft(id: Id, ins: InsertNewsArticle, created: Time, p: NewsPatch, now: Time)
    requires ins.published != Supplied(Some(true))
    requires p.published == Supplied(Some(true))
    ensures var a := CreatedNewsArticle(id, ins, created);
            && a.publishedAt == None && !NewsWhere(a, Some(true))
            && ApplyNewsPatch(a, p, now).publishedAt == Some(now)
            && NewsWhere(ApplyNewsPatch(a, p, now), Some(true))
  {
  }

  /** `updateAlumni`: the partial schema has no `approved` or `featured`, so those never change. */
  function ApplyAlumniPatch(a: Alumni, p: AlumniPatch, now: Time): (r: Alumni)
    ensures r.id == a.id && r.createdAt == a.createdAt && r.updatedAt == now
    ensures r.approved == a.approved && r.featured == a.featured
    ensures p.fullName.Omitted? ==> r.fullName == a.fullName
    ensures p.fullName.Supplied? ==> r.fullName == p.fullName.value
    ensures p.graduationYear.Omitted? ==> r.graduationYear == a.graduationYear
    ensures p.graduationYear.Supplied? ==> r.graduationYear == p.graduationYear.value
    ensures p.program.Omitted? ==> r.program == a.program
    ensures p.program.Supplied? ==> r.program == p.program.value
    ensures p.currentJob.Omitted? ==> r.currentJob == a.currentJob
    ensures p.currentJob.Supplied? ==> r.currentJob == p.currentJob.value
    ensures p.company.Omitted? ==> r.company == a.company
    ensures p.company.Supplied? ==> r.company == p.company.value
    ensures p.achievement.Omitted? ==> r.achievement == a.achievement
    ensures p.achievement.Supplied? ==> r.achievement == p.achievement.value
    ensures p.testimonial.Omitted? ==> r.testimonial == a.testimonial
    ensures p.testimonial.Supplied? ==> r.testimonial == p.testimonial.value
    ensures p.photo.Omitted? ==> r.photo == a.photo
    ensures p.photo.Supplied? ==> r.photo == p.photo.value
    ensures p.email.Omitted? ==> r.email == a.email
    ensures p.email.Supplied? ==> r.email == p.email.value
    ensures p.linkedIn.Omitted? ==> r.linkedIn == a.linkedIn
    ensures p.linkedIn.Supplied? ==> r.linkedIn == p.linkedIn.value
  {
    Alumni(a.id, Or(p.fullName, a.fullName), Or(p.graduationYear, a.graduationYear),
           Or(p.program, a.program), Or(p.currentJob, a.currentJob), Or(p.company, a.company),
           Or(p.achievement, a.achievement), Or(p.testimonial, a.testimonial),
           Or(p.photo, a.photo), Or(p.email, a.email), Or(p.linkedIn, a.linkedIn),
           a.featured, a.approved, a.createdAt, now)
  }

  function ApplyEventPatch(e: AcademicEvent, p: EventPatch, now: Time): (r: AcademicEvent)
    ensures r.id == e.id && r.createdAt == e.createdAt && r.updatedAt == now
    ensures p.title.Omitted? ==> r.title == e.title
    ensures p.title.Supplied? ==> r.title == p.title.value
    ensures p.description.Omitted? ==> r.description == e.description
    ensures p.description.Supplied? ==> r.description == p.description.value
    ensures p.eventDate.Omitted? ==> r.eventDate == e.eventDate
    ensures p.eventDate.Supplied? ==> r.eventDate == p.eventDate.value
    ensures p.eventTime.Omitted? ==> r.eventTime == e.eventTime
    ensures p.eventTime.Supplied? ==> r.eventTime == p.eventTime.value
    ensures p.location.Omitted? ==> r.location == e.location
    ensures p.location.Supplied? ==> r.location == p.location.value
    ensures p.category.Omitted? ==> r.category == e.category
    ensures p.category.Supplied? ==> r.category == p.category.value
    ensures p.isPublic.Omitted? ==> r.isPublic == e.isPublic
    ensures p.isPublic.Supplied? ==> r.isPublic == p.isPublic.value
  {
    AcademicEvent(e.id, Or(p.title, e.title), Or(p.description, e.description),
                  Or(p.eventDate, e.eventDate), Or(p.eventTime, e.eventTime),
                  Or(p.location, e.location), Or(p.category, e.category),
                  Or(p.isPublic, e.isPublic), e.createdAt, now)
  }

  // Status updates.

  /** `notes: notes || undefined`: an absent or empty note leaves the stored one. */
  function WithRegistrationStatus(r: StudentRegistration, status: string, notes: Option<string>,
                                  now: Time): (s: StudentRegistration)
    ensures s.status == status && s.updatedAt == now
    ensures notes.Some? && notes.value != "" ==> s.notes == notes
    ensures notes.None? || notes.value == "" ==> s.notes == r.notes
    ensures s.(status := r.status, notes := r.notes, updatedAt := r.updatedAt) == r
  {
    r.(status := status, notes := if notes.Some? && notes.value != "" then notes else r.notes,
       updatedAt := now)
  }

  /** `approved` is always written, `featured` only when given. */
  function WithAlumniStatus(a: Alumni, approved: bool, featured: Option<bool>, now: Time)
    : (s: Alumni)
    ensures s.approved == Some(approved) && s.updatedAt == now
    ensures featured.Some? ==> s.featured == featured
    ensures featured.None? ==> s.featured == a.featured
    ensures s.(approved := a.approved, featured := a.featured, updatedAt := a.updatedAt) == a
  {
    a.(approved := Some(approved), featured := if featured.Some? then featured else a.featured,
       updatedAt := now)
  }

  class DatabaseStorage {
    var users: map<Id, User>
    var contactMessages: map<Id, ContactMessage>
    var newsArticles: map<Id, NewsArticle>
    var studentRegistrations: map<Id, StudentRegistration>
    var alumni: map<Id, Alumni>
    var academicEvents: map<Id, AcademicEvent>
    /** The fresh-id supply: every id handed out so far is below it. */
    var nextId: Id

    ghost predicate Valid()
      reads this
    {
      && (forall k :: k in users ==> k < nextId && users[k].id == k)
      && (forall k :: k in contactMessages ==> k < nextId && contactMessages[k].id == k)
      && (forall k :: k in newsArticles ==> k < nextId && newsArticles[k].id == k)
      && (forall k :: k in studentRegistrations ==> k < nextId && studentRegistrations[k].id == k)
      && (forall k :: k in alumni ==> k < nextId && alumni[k].id == k)
      && (forall k :: k in academicEvents ==> k < nextId && academicEvents[k].id == k)
      && (forall j, k :: j in users && k in users && users[j].username == users[k].username ==> j == k)
      && (forall k :: k in newsArticles ==> PublishedIsDated(newsArticles[k]))
    }

    constructor ()
      ensures Valid() && nextId == 0
      ensures users == map[] && contactMessages == map[] && newsArticles == map[]
      ensures studentRegistrations == map[] && alumni == map[] && academicEvents == map[]
    {
      users, contactMessages, newsArticles := map[], map[], map[];
      studentRegistrations, alumni, academicEvents := map[], map[], map[];
      nextId := 0;
    }

    // Users

    function GetUser(id: Id): (r: Option<User>)
      reads this
      requires Valid()
      ensures r.Some? <==> id in users
      ensures r.Some? ==> r.value == users[id] && r.value.id == id
    {
      Lookup(users, id)
    }

    function GetUserByUsername(username: string): (r: Option<User>)
      reads this
      requires Valid()
      ensures r.Some? <==> UsernameTaken(users, username)
      ensures r.Some? ==> r.value.id in users && users[r.value.id] == r.value
      ensures r.Some? ==> r.value.username == username
    {
      var r := FindByUsername(Rows(users, nextId, (u: User) => u.id), username);
      assert r.None? ==> forall k :: k in users ==> users[k] in Rows(users, nextId, (u: User) => u.id);
      r
    }

    /** The unique constraint on `username` refuses a second row with the same name. */
    method CreateUser(ins: InsertUser, now: Time) returns (r: WriteResult<User>)
      requires Valid()
      modifies this`users, this`nextId
      ensures Valid()
      ensures UsernameTaken(old(users), ins.username) ==>
                r == UniqueViolation && users == old(users) && nextId == old(nextId)
      ensures !UsernameTaken(old(users), ins.username) ==>
                && r == Written(CreatedUser(old(nextId), ins, now))
                && old(nextId) !in old(users)
                && users == old(users)[old(nextId) := r.row]
                && nextId == old(nextId) + 1
    {
      if GetUserByUsername(ins.username).Some? {
        return UniqueViolation;
      }
      var u := CreatedUser(nextId, ins, now);
      users := users[nextId := u];
      nextId := nextId + 1;
      r := Written(u);
    }

    // Contact messages

    method CreateContactMessage(ins: InsertContactMessage, now: Time) returns (m: ContactMessage)
      requires Valid()
      modifies this`contactMessages, this`nextId
      ensures Valid()
      ensures m == ContactMessageRow(old(nextId), ins, now) && m.status == "unread"
      ensures old(nextId) !in old(contactMessages)
      ensures contactMessages == old(contactMessages)[m.id := m] && nextId == old(nextId) + 1
    {
      m := ContactMessageRow(nextId, ins, now);
      contactMessages := contactMessages[nextId := m];
      nextId := nextId + 1;
    }

    function GetContactMessages(): (r: seq<ContactMessage>)
      reads this
      requires Valid()
      ensures forall m :: m in r ==> m in contactMessages.Values
      ensures forall m :: m in contactMessages.Values ==> m in r
      ensures forall i, j :: 0 <= i < j < |r| ==> r[i].createdAt >= r[j].createdAt
      ensures Distinct(r)
    {
      NewestMessagesFirst(Rows(contactMessages, nextId, (c: ContactMessage) => c.id))
    }

    method UpdateContactMessageStatus(id: Id, status: string)
      requires Valid()
      modifies this`contactMessages
      ensures Valid()
      ensures id !in old(contactMessages) ==> contactMessages == old(contactMessages)
      ensures id in old(contactMessages) ==>
                contactMessages == old(contactMessages)[id := old(contactMessages)[id].(status := status)]
    {
      if id in contactMessages {
        contactMessages := contactMessages[id := contactMessages[id].(status := status)];
      }
    }

    // News articles

    method CreateNewsArticle(ins: InsertNewsArticle, now: Time) returns (a: NewsArticle)
      requires Valid()
      modifies this`newsArticles, this`nextId
      ensures Valid()
      ensures a == CreatedNewsArticle(old(nextId), ins, now)
      ensures old(nextId) !in old(newsArticles)
      ensures newsArticles == old(newsArticles)[a.id := a] && nextId == old(nextId) + 1
    {
      a := CreatedNewsArticle(nextId, ins, now);
      newsArticles := newsArticles[nextId := a];
      nextId := nextId + 1;
    }

    function GetNewsArticles(published: Option<bool>): (r: seq<NewsArticle>)
      reads this
      requires Valid()
      ensures forall a :: a in r ==> a in newsArticles.Values && NewsWhere(a, published)
      ensures forall a :: a in newsArticles.Values && NewsWhere(a, published) ==> a in r
      ensures forall i, j :: 0 <= i < j < |r| ==> r[i].createdAt >= r[j].createdAt
      ensures Distinct(r)
    {
      QueryNews(Rows(newsArticles, nextId, (n: NewsArticle) => n.id), published)
    }

    function GetNewsArticle(id: Id): (r: Option<NewsArticle>)
      reads this
      requires Valid()
      ensures r.Some? <==> id in newsArticles
      ensures r.Some? ==> r.value == newsArticles[id] && r.value.id == id
    {
      Lookup(newsArticles, id)
    }

    /** Updates the row if there is one; `returning()` yields nothing otherwise. */
    method UpdateNewsArticle(id: Id, patch: NewsPatch, now: Time) returns (r: Option<NewsArticle>)
      requires Valid()
      modifies this`newsArticles
      ensures Valid()
      ensures id !in old(newsArticles) ==> r == None && newsArticles == old(newsArticles)
      ensures id in old(newsArticles) ==>
                && r == Some(ApplyNewsPatch(old(newsArticles)[id], patch, now))
                && newsArticles == old(newsArticles)[id := r.value]
    {
      if id !in newsArticles {
        return None;
      }
      var a := ApplyNewsPatch(newsArticles[id], patch, now);
      newsArticles := newsArticles[id := a];
      r := Some(a);
    }

    method DeleteNewsArticle(id: Id)
      requires Valid()
      modifies this`newsArticles
      ensures Valid()
      ensures newsArticles == old(newsArticles) - {id}
      ensures id !in old(newsArticles) ==> newsArticles == old(newsArticles)
      ensures forall k :: k in old(newsArticles) && k != id ==>
                k in newsArticles && newsArticles[k] == old(newsArticles)[k]
    {
      newsArticles := newsArticles - {id};
    }

    // Student registrations

    method CreateStudentRegistration(ins: InsertStudentRegistration, now: Time)
      returns (r: StudentRegistration)
      requires Valid()
      modifies this`studentRegistrations, this`nextId
      ensures Valid()
      ensures r == StudentRegistrationRow(old(nextId), ins, now) && r.status == "pending"
      ensures old(nextId) !in old(studentRegistrations)
      ensures studentRegistrations == old(studentRegistrations)[r.id := r]
      ensures nextId == old(nextId) + 1
    {
      r := StudentRegistrationRow(nextId, ins, now);
      studentRegistrations := studentRegistrations[nextId := r];
      nextId := nextId + 1;
    }

    function GetStudentRegistrations(): (r: seq<StudentRegistration>)
      reads this
      requires Valid()
      ensures forall x :: x in r ==> x in studentRegistrations.Values
      ensures forall x :: x in studentRegistrations.Values ==> x in r
      ensures forall i, j :: 0 <= i < j < |r| ==> r[i].createdAt >= r[j].createdAt
      ensures Distinct(r)
    {
      NewestRegistrationsFirst(Rows(studentRegistrations, nextId, (s: StudentRegistration) => s.id))
    }

    function GetStudentRegistration(id: Id): (r: Option<StudentRegistration>)
      reads this
      requires Valid()
      ensures r.Some? <==> id in studentRegistrations
      ensures r.Some? ==> r.value == studentRegistrations[id] && r.value.id == id
    {
      Lookup(studentRegistrations, id)
    }

    method UpdateStudentRegistrationStatus(id: Id, status: string, notes: Option<string>, now: Time)
      requires Valid()
      modifies this`studentRegistrations
      ensures Valid()
      ensures id !in old(studentRegistrations) ==> studentRegistrations == old(studentRegistrations)
      ensures id in old(studentRegistrations) ==>
                studentRegistrations == old(studentRegistrations)[id :=
                  WithRegistrationStatus(old(studentRegistrations)[id], status, notes, now)]
    {
      if id in studentRegistrations {
        var r := WithRegistrationStatus(studentRegistrations[id], status, notes, now);
        studentRegistrations := studentRegistrations[id := r];
      }
    }

    // Alumni

    method CreateAlumni(ins: InsertAlumni, now: Time) returns (a: Alumni)
      requires Valid()
      modifies this`alumni, this`nextId
      ensures Valid()
      ensures a == AlumniRow(old(nextId), ins, now)
      ensures a.approved == Some(false) && a.featured == Some(false)
      ensures old(nextId) !in old(alumni)
      ensures alumni == old(alumni)[a.id := a] && nextId == old(nextId) + 1
    {
      a := AlumniRow(nextId, ins, now);
      alumni := alumni[nextId := a];
      nextId := nextId + 1;
    }

    function GetAlumni(approved: Option<bool>, featured: Option<bool>): (r: seq<Alumni>)
      reads this
      requires Valid()
      ensures forall a :: a in r ==> a in alumni.Values && AlumniWhere(a, approved, featured)
      ensures forall a :: a in alumni.Values && AlumniWhere(a, approved, featured) ==> a in r
      ensures forall i, j :: 0 <= i < j < |r| ==> r[i].graduationYear >= r[j].graduationYear
      ensures Distinct(r)
    {
      QueryAlumni(Rows(alumni, nextId, (a: Alumni) => a.id), approved, featured)
    }

    function GetAlumniById(id: Id): (r: Option<Alumni>)
      reads this
      requires Valid()
      ensures r.Some? <==> id in alumni
      ensures r.Some? ==> r.value == alumni[id] && r.value.id == id
    {
      Lookup(alumni, id)
    }

    method UpdateAlumni(id: Id, patch: AlumniPatch, now: Time) returns (r: Option<Alumni>)
      requires Valid()
      modifies this`alumni
      ensures Valid()
      ensures id !in old(alumni) ==> r == None && alumni == old(alumni)
      ensures id in old(alumni) ==>
                && r == Some(ApplyAlumniPatch(old(alumni)[id], patch, now))
                && alumni == old(alumni)[id := r.value]
    {
      if id !in alumni {
        return None;
      }
      var a := ApplyAlumniPatch(alumni[id], patch, now);
      alumni := alumni[id := a];
      r := Some(a);
    }

    method UpdateAlumniStatus(id: Id, approved: bool, featured: Option<bool>, now: Time)
      requires Valid()
      modifies this`alumni
      ensures Valid()
      ensures id !in old(alumni) ==> alumni == old(alumni)
      ensures id in old(alumni) ==>
                alumni == old(alumni)[id := WithAlumniStatus(old(alumni)[id], approved, featured, now)]
    {
      if id in alumni {
        alumni := alumni[id := WithAlumniStatus(alumni[id], approved, featured, now)];
      }
    }

    // Academic events

    method CreateAcademicEvent(ins: InsertAcademicEvent, now: Time) returns (e: AcademicEvent)
      requires Valid()
      modifies this`academicEvents, this`nextId
      ensures Valid()
      ensures e == AcademicEventRow(old(nextId), ins, now)
      ensures old(nextId) !in old(academicEvents)
      ensures academicEvents == old(academicEvents)[e.id := e] && nextId == old(nextId) + 1
    {
      e := AcademicEventRow(nextId, ins, now);
      academicEvents := academicEvents[nextId := e];
      nextId := nextId + 1;
    }

    function GetAcademicEvents(isPublic: Option<bool>): (r: seq<AcademicEvent>)
      reads this
      requires Valid()
      ensures forall e :: e in r ==> e in academicEvents.Values && EventWhere(e, isPublic)
      ensures forall e :: e in academicEvents.Values && EventWhere(e, isPublic) ==> e in r
      ensures forall i, j :: 0 <= i < j < |r| ==> r[i].eventDate <= r[j].eventDate
      ensures Distinct(r)
    {
      QueryEvents(Rows(academicEvents, nextId, (a: AcademicEvent) => a.id), isPublic)
    }

    function GetAcademicEvent(id: Id): (r: Option<AcademicEvent>)
      reads this
      requires Valid()
      ensures r.Some? <==> id in academicEvents
      ensures r.Some? ==> r.value == academicEvents[id] && r.value.id == id
    {
      Lookup(academicEvents, id)
    }

    method UpdateAcademicEvent(id: Id, patch: EventPatch, now: Time) returns (r: Option<AcademicEvent>)
      requires Valid()
      modifies this`academicEvents
      ensures Valid()
      ensures id !in old(academicEvents) ==> r == None && academicEvents == old(academicEvents)
      ensures id in old(academicEvents) ==>
                && r == Some(ApplyEventPatch(old(academicEvents)[id], patch, now))
                && academicEvents == old(academicEvents)[id := r.value]
    {
      if id !in academicEvents {
        return None;
      }
      var e := ApplyEventPatch(academicEvents[id], patch, now);
      academicEvents := academicEvents[id := e];
      r := Some(e);
    }

    method DeleteAcademicEvent(id: Id)
      requires Valid()
      modifies this`academicEvents
      ensures Valid()
      ensures academicEvents == old(academicEvents) - {id}
      ensures id !in old(academicEvents) ==> academicEvents == old(academicEvents)
      ensures forall k :: k in old(academicEvents) && k != id ==>
                k in academicEvents && academicEvents[k] == old(academicEvents)[k]
    {
      academicEvents := academicEvents - {id};
    }
  }

  /** The outcome of an INSERT into a table with a unique column. */
  datatype WriteResult<T> = Written(row: T) | UniqueViolation
}
