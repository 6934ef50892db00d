/** The six tables of the school site: their row shapes with nullability, the column defaults an
    INSERT stamps in, and the insert shapes (the columns a create may set). */
module Schema {
  import opened Wrappers

  /** Primary keys. The database draws them with `gen_random_uuid()`; here they come from a
      fresh-id supply that never hands out the same value twice. */
  type Id = nat

  /** Values of an abstract clock standing for `defaultNow()` and `new Date()`. */
  type Time = int

  /** A key of an insert or update payload: left out, or given. For a nullable column the given
      value is itself an `Option`, `None` being an explicit `null`. */
  datatype Field<T> = Omitted | Supplied(value: T)

  /** The value a column gets from a payload key: the given value, or `default` when left out. */
  function Or<T>(f: Field<T>, default: T): T {
    if f.Supplied? then f.value else default
  }

  // Column defaults.
  const DefaultRole: string := "admin"
  const DefaultContactStatus: string := "unread"
  const DefaultRegistrationStatus: string := "pending"

  // Rows. A column without `notNull()` holds an `Option`; `createdAt`/`updatedAt` are always
  // filled by `defaultNow()` and never written by a payload, so they hold a plain `Time`.

  datatype User = User(id: Id, username: string, password: string, role: string, createdAt: Time)

  datatype ContactMessage = ContactMessage(
    id: Id, name: string, email: string, subject: string, message: string,
    status: string, createdAt: Time)

  datatype NewsArticle = NewsArticle(
    id: Id, title: string, content: string, excerpt: string, author: string,
    featured: Option<bool>, published: Option<bool>, publishedAt: Option<Time>,
    createdAt: Time, updatedAt: Time)

  datatype StudentRegistration = StudentRegistration(
    id: Id, fullName: string, email: string, phone: string, dateOfBirth: string,
    address: string, parentName: string, parentPhone: string, previousSchool: string,
    program: string, documents: Option<string>, status: string, notes: Option<string>,
    createdAt: Time, updatedAt: Time)

  datatype Alumni = Alumni(
    id: Id, fullName: string, graduationYear: int, program: string,
    currentJob: Option<string>, company: Option<string>, achievement: Option<string>,
    testimonial: Option<string>, photo: Option<string>, email: Option<string>,
    linkedIn: Option<string>, featured: Option<bool>, approved: Option<bool>,
    createdAt: Time, updatedAt: Time)

  datatype AcademicEvent = AcademicEvent(
    id: Id, title: string, description: Option<string>, eventDate: Time,
    eventTime: Option<string>, location: Option<string>, category: string,
    isPublic: Option<bool>, createdAt: Time, updatedAt: Time)

  // Insert shapes: exactly the columns each `insert*Schema` picks. None of them has an id,
  // a status, a timestamp, or (for alumni) `featured`/`approved`.

  datatype InsertUser = InsertUser(username: string, password: string, role: Field<string>)

  datatype InsertContactMessage = InsertContactMessage(
    name: string, email: string, subject: string, message: string)

  datatype InsertNewsArticle = InsertNewsArticle(
    title: string, content: string, excerpt: string, author: string,
    featured: Field<Option<bool>>, published: Field<Option<bool>>)

  datatype InsertStudentRegistration = InsertStudentRegistration(
    fullName: string, email: string, phone: string, dateOfBirth: string, address: string,
    parentName: string, parentPhone: string, previousSchool: string, program: string,
    documents: Field<Option<string>>)

  datatype InsertAlumni = InsertAlumni(
    fullName: string, graduationYear: int, program: string,
    currentJob: Field<Option<string>>, company: Field<Option<string>>,
    achievement: Field<Option<string>>, testimonial: Field<Option<string>>,
    photo: Field<Option<string>>, email: Field<Option<string>>, linkedIn: Field<Option<string>>)

  datatype InsertAcademicEvent = InsertAcademicEvent(
    title: string, description: Field<Option<string>>, eventDate: Time,
    eventTime: Field<Option<string>>, location: Field<Option<string>>, category: string,
    isPublic: Field<Option<bool>>)

  // Partial shapes (`insert*Schema.partial()`): every picked column becomes optional.

  datatype NewsPatch = NewsPatch(
    title: Field<string>, content: Field<string>, excerpt: Field<string>, author: Field<string>,
    featured: Field<Option<bool>>, published: Field<Option<bool>>)

  datatype AlumniPatch = AlumniPatch(
    fullName: Field<string>, graduationYear: Field<int>, program: Field<string>,
    currentJob: Field<Option<string>>, company: Field<Option<string>>,
    achievement: Field<Option<string>>, testimonial: Field<Option<string>>,
    photo: Field<Option<string>>, email: Field<Option<string>>, linkedIn: Field<Option<string>>)

  datatype EventPatch = EventPatch(
    title: Field<string>, description: Field<Option<string>>, eventDate: Field<Time>,
    eventTime: Field<Option<string>>, location: Field<Option<string>>, category: Field<string>,
    isPublic: Field<Option<bool>>)

  // What an INSERT of a payload stores: the given columns, each left-out column its default
  // (`null` for a nullable column without one), a new id and the clock's time.

  function UserRow(id: Id, ins: InsertUser, now: Time): (u: User)
    ensures u.id == id && u.username == ins.username && u.password == ins.password
    ensures ins.role.Omitted? ==> u.role == DefaultRole
    ensures ins.role.Supplied? ==> u.role == ins.role.value
    ensures u.createdAt == now
  {
    User(id, ins.username, ins.password, Or(ins.role, DefaultRole), now)
  }

  function ContactMessageRow(id: Id, ins: InsertContactMessage, now: Time): (m: ContactMessage)
    ensures m.id == id && m.createdAt == now
    ensures m.name == ins.name && m.email == ins.email
    ensures m.subject == ins.subject && m.message == ins.message
    ensures m.status == DefaultContactStatus
  {
    ContactMessage(id, ins.name, ins.email, ins.subject, ins.message, DefaultContactStatus, now)
  }

  /** `publishedAt` has no column default; the caller decides it. */
  function NewsArticleRow(id: Id, ins: InsertNewsArticle, publishedAt: Option<Time>, now: Time)
    : (a: NewsArticle)
    ensures a.id == id && a.createdAt == now && a.updatedAt == now
    ensures a.title == ins.title && a.content == ins.content
    ensures a.excerpt == ins.excerpt && a.author == ins.author
    ensures ins.featured.Omitted? ==> a.featured == Some(false)
    ensures ins.published.Omitted? ==> a.published == Some(false)
    ensures ins.featured.Supplied? ==> a.featured == ins.featured.value
    ensures ins.published.Supplied? ==> a.published == ins.published.value
    ensures a.publishedAt == publishedAt
  {
    NewsArticle(id, ins.title, ins.content, ins.excerpt, ins.author,
                Or(ins.featured, Some(false)), Or(ins.published, Some(false)), publishedAt,
                now, now)
  }

  function StudentRegistrationRow(id: Id, ins: InsertStudentRegistration, now: Time)
    : (r: StudentRegistration)
    ensures r.id == id && r.createdAt == now && r.updatedAt == now
    ensures r.fullName == ins.fullName && r.email == ins.email && r.phone == ins.phone
    ensures r.dateOfBirth == ins.dateOfBirth && r.address == ins.address
    ensures r.parentName == ins.parentName && r.parentPhone == ins.parentPhone
    ensures r.previousSchool == ins.previousSchool && r.program == ins.program
    ensures ins.documents.Omitted? ==> r.documents == None
    ensures ins.documents.Supplied? ==> r.documents == ins.documents.value
    ensures r.status == DefaultRegistrationStatus && r.notes == None
  {
    StudentRegistration(id, ins.fullName, ins.email, ins.phone, ins.dateOfBirth, ins.address,
                        ins.parentName, ins.parentPhone, ins.previousSchool, ins.program,
                        Or(ins.documents, None), DefaultRegistrationStatus, None, now, now)
  }

  function AlumniRow(id: Id, ins: InsertAlumni, now: Time): (a: Alumni)
    ensures a.id == id && a.createdAt == now && a.updatedAt == now
    ensures a.fullName == ins.fullName && a.graduationYear == ins.graduationYear
    ensures a.program == ins.program
    ensures ins.currentJob.Omitted? ==> a.currentJob == None
    ensures ins.currentJob.Supplied? ==> a.currentJob == ins.currentJob.value
    ensures ins.company.Omitted? ==> a.company == None
    ensures ins.company.Supplied? ==> a.company == ins.company.value
    ensures ins.achievement.Omitted? ==> a.achievement == None
    ensures ins.achievement.Supplied? ==> a.achievement == ins.achievement.value
    ensures ins.testimonial.Omitted? ==> a.testimonial == None
    ensures ins.testimonial.Supplied? ==> a.testimonial == ins.testimonial.value
    ensures ins.photo.Omitted? ==> a.photo == None
    ensures ins.photo.Supplied? ==> a.photo == ins.photo.value
    ensures ins.email.Omitted? ==> a.email == None
    ensures ins.email.Supplied? ==> a.email == ins.email.value
    ensures ins.linkedIn.Omitted? ==> a.linkedIn == None
    ensures ins.linkedIn.Supplied? ==> a.linkedIn == ins.linkedIn.value
    ensures a.featured == Some(false) && a.approved == Some(false)
  {
    Alumni(id, ins.fullName, ins.graduationYear, ins.program,
           Or(ins.currentJob, None), Or(ins.company, None), Or(ins.achievement, None),
           Or(ins.testimonial, None), Or(ins.photo, None), Or(ins.email, None),
           Or(ins.linkedIn, None), Some(false), Some(false), now, now)
  }

  function AcademicEventRow(id: Id, ins: InsertAcademicEvent, now: Time): (e: AcademicEvent)
    ensures e.id == id && e.createdAt == now && e.updatedAt == now
    ensures e.title == ins.title && e.eventDate == ins.eventDate && e.category == ins.category
    ensures ins.description.Omitted? ==> e.description == None
    ensures ins.description.Supplied? ==> e.description == ins.description.value
    ensures ins.eventTime.Omitted? ==> e.eventTime == None
    ensures ins.eventTime.Supplied? ==> e.eventTime == ins.eventTime.value
    ensures ins.location.Omitted? ==> e.location == None
    ensures ins.location.Supplied? ==> e.location == ins.location.value
    ensures ins.isPublic.Omitted? ==> e.isPublic == Some(true)
    ensures ins.isPublic.Supplied? ==> e.isPublic == ins.isPublic.value
  {
    AcademicEvent(id, ins.title, Or(ins.description, None), ins.eventDate,
                  Or(ins.eventTime, None), Or(ins.location, None), ins.category,
                  Or(ins.isPublic, Some(true)), now, now)
  }
}
