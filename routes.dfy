/** The REST handlers of `registerRoutes`: the session gate, the auth endpoints, and for each
    table its public and protected endpoints, as responses (status code and JSON payload)
    together with the storage writes each one makes. */
module Routes {
  import opened Wrappers
  import opened Schema
  import opened InsertSchemas
  import opened Storage
  import opened Collections

  /** What a client may see of a user: never the password hash. */
  datatype UserView = UserView(id: Id, username: string, role: string)

  function View(u: User): (v: UserView)
    ensures v.id == u.id && v.username == u.username && v.role == u.role
  {
    UserView(u.id, u.username, u.role)
  }

  /** The extra key of an envelope, or the whole body of a bare reply. */
  datatype Data =
    | NoData
    | Errors(issues: seq<Issue>)
    | UserData(user: UserView)
    | NewId(id: Id)
    | Messages(messages: seq<ContactMessage>)
    | Articles(articles: seq<NewsArticle>)
    | Article(article: Option<NewsArticle>)
    | Registrations(registrations: seq<StudentRegistration>)
    | Registration(registration: StudentRegistration)
    | AlumniList(alumni: seq<Alumni>)
    | Alumnus(alumnus: Option<Alumni>)
    | Events(events: seq<AcademicEvent>)
    | Event(event: Option<AcademicEvent>)

  /** `{ success, message?, <data> }`, or a row or list sent as it is. */
  datatype Reply =
    | Envelope(success: bool, message: Option<string>, data: Data)
    | Bare(data: Data)

  datatype Response = Response(code: nat, reply: Reply)

  /** A session: the cookie-backed store holds at most the id of the logged-in user. */
  class Session {
    var userId: Option<Id>

    constructor ()
      ensures userId == None
    {
      userId := None;
    }
  }

  const AuthRequired: string := "Authentication required"
  const InvalidData: string := "Data tidak valid"
  const UsernameInUse: string := "Username sudah digunakan"
  const BadCredentials: string := "Username atau password salah"
  const InternalError: string := "Terjadi kesalahan internal server"

  function Ok(message: string, data: Data): Response {
    Response(200, Envelope(true, Some(message), data))
  }

  function Failure(code: nat, message: string): Response {
    Response(code, Envelope(false, Some(message), NoData))
  }

  /** `requireAuth`: 401 and the handler does not run. */
  const Unauthorized: Response := Failure(401, AuthRequired)

  // Every handler but logout wraps its work in `try`/`catch`. The parameter `fails` says that a
  // storage call (or bcrypt) throws: the handler then answers 500 with its own fixed message,
  // and since the failing statement writes nothing, no table changes.

  /** A `ZodError` caught by the handler: 400 with every issue. */
  function Invalid(issues: seq<Issue>): Response {
    Response(400, Envelope(false, Some(InvalidData), Errors(issues)))
  }

  /** `requireAuth` lets a request through exactly when the session holds a user id. */
  predicate Authenticated(s: Session)
    reads s
  {
    s.userId.Some?
  }

  /** `req.query.x === 'true' ? true : undefined`: only the exact text "true" sets a filter. */
  function QueryFlag(q: Option<string>): (r: Option<bool>)
    ensures r.Some? <==> q == Some("true")
    ensures r != Some(false)
  {
    if q == Some("true") then Some(true) else None
  }

  /** `?published=false` filters nothing: it lists the same rows as no parameter at all. */
  lemma FalseFlagFiltersNothing(q: Option<string>)
    requires q != Some("true")
    ensures QueryFlag(q) == QueryFlag(None)
  {
  }

  // Auth

  /** POST /api/auth/register. The stored password is the hash; the reply never holds it. */
  method Register(db: DatabaseStorage, body: Body, hash: string -> string, now: Time, fails: bool)
    returns (resp: Response)
    requires db.Valid()
    modifies db`users, db`nextId
    ensures db.Valid()
    ensures ParseUser(body).Rejected? ==>
              && resp == Invalid(ParseUser(body).issues)
              && db.users == old(db.users) && db.nextId == old(db.nextId)
    ensures ParseUser(body).Parsed? && fails ==>
              resp == Failure(500, InternalError) && db.users == old(db.users) && db.nextId == old(db.nextId)
    ensures ParseUser(body).Parsed? && !fails && UsernameTaken(old(db.users), ParseUser(body).value.username) ==>
              && resp == Failure(400, UsernameInUse)
              && db.users == old(db.users) && db.nextId == old(db.nextId)
    ensures ParseUser(body).Parsed? && !fails && !UsernameTaken(old(db.users), ParseUser(body).value.username) ==>
              var ins := ParseUser(body).value;
              var u := CreatedUser(old(db.nextId), ins.(password := hash(ins.password)), now);
              && u.password == hash(ins.password)
              && db.users == old(db.users)[u.id := u]
              && resp == Ok("User berhasil dibuat", UserData(View(u)))
  {
    var parsed := ParseUser(body);
    if parsed.Rejected? {
      return Invalid(parsed.issues);
    }
    if fails {
      return Failure(500, InternalError);
    }
    var ins := parsed.value;
    if db.GetUserByUsername(ins.username).Some? {
      return Failure(400, UsernameInUse);
    }
    var written := db.CreateUser(ins.(password := hash(ins.password)), now);
    resp := Ok("User berhasil dibuat", UserData(View(written.row)));
  }

  /** POST /api/auth/login. An unknown user and a wrong password get the same 401, and only a
      successful login touches the session. */
  method Login(db: DatabaseStorage, s: Session, username: string, password: string,
               matches: (string, string) -> bool, fails: bool) returns (resp: Response)
    requires db.Valid()
    modifies s`userId
    ensures fails ==> resp == Failure(500, InternalError) && s.userId == old(s.userId)
    ensures var found := db.GetUserByUsername(username);
            !fails && (found.None? || !matches(password, found.value.password)) ==>
              resp == Failure(401, BadCredentials) && s.userId == old(s.userId)
    ensures var found := db.GetUserByUsername(username);
            !fails && found.Some? && matches(password, found.value.password) ==>
              && s.userId == Some(found.value.id) && found.value.id in db.users
              && resp == Ok("Login berhasil", UserData(View(found.value)))
  {
    if fails {
      return Failure(500, InternalError);
    }
    var found := db.GetUserByUsername(username);
    if found.None? || !matches(password, found.value.password) {
      return Failure(401, BadCredentials);
    }
    s.userId := Some(found.value.id);
    resp := Ok("Login berhasil", UserData(View(found.value)));
  }

  /** POST /api/auth/logout: the session is destroyed, whether or not anyone was logged in. */
  method Logout(s: Session) returns (resp: Response)
    modifies s`userId
    ensures s.userId == None && !Authenticated(s)
    ensures resp == Ok("Logout berhasil", NoData)
  {
    s.userId := None;
    resp := Ok("Logout berhasil", NoData);
  }

  /** GET /api/auth/me. Behind `requireAuth` the handler's own missing-id check cannot fire. */
  function Me(db: DatabaseStorage, s: Session, fails: bool): (r: Response)
    reads db, s
    requires db.Valid()
    ensures s.userId.None? ==> r == Unauthorized
    ensures s.userId.Some? && fails ==> r == Failure(500, InternalError)
    ensures s.userId.Some? && !fails && s.userId.value !in db.users ==>
              r == Failure(404, "User tidak ditemukan")
    ensures s.userId.Some? && !fails && s.userId.value in db.users ==>
              r == Response(200, Envelope(true, None, UserData(View(db.users[s.userId.value]))))
  {
    if !Authenticated(s) then Unauthorized
    else if fails then Failure(500, InternalError)
    else match db.GetUser(s.userId.value)
      case None => Failure(404, "User tidak ditemukan")
      case Some(u) => Response(200, Envelope(true, None, UserData(View(u))))
  }

  /** A session only ever names a stored user: users are never deleted and login names one. */
  method LoginThenMe(db: DatabaseStorage, s: Session, username: string, password: string,
                     matches: (string, string) -> bool) returns (login: Response, me: Response)
    requires db.Valid()
    modifies s`userId
    ensures login.code == 200 ==> me.code == 200 && me.reply.data == login.reply.data
    ensures login.code != 200 ==> login.code == 401 && s.userId == old(s.userId)
  {
    login := Login(db, s, username, password, matches, false);
    me := Me(db, s, false);
  }

  // Contact messages

  /** POST /api/contact: the stored message holds the trimmed fields and starts unread. */
  method PostContact(db: DatabaseStorage, body: Body, isEmail: string -> bool, now: Time,
                     fails: bool) returns (resp: Response)
    requires db.Valid()
    modifies db`contactMessages, db`nextId
    ensures db.Valid()
    ensures ParseContactForm(body, isEmail).Rejected? ==>
              && resp == Invalid(ParseContactForm(body, isEmail).issues)
              && db.contactMessages == old(db.contactMessages) && db.nextId == old(db.nextId)
    ensures ParseContactForm(body, isEmail).Parsed? && fails ==>
              && resp == Failure(500, InternalError)
              && db.contactMessages == old(db.contactMessages) && db.nextId == old(db.nextId)
    ensures ParseContactForm(body, isEmail).Parsed? && !fails ==>
              var m := ContactMessageRow(old(db.nextId), ParseContactForm(body, isEmail).value, now);
              && m.status == "unread"
              && db.contactMessages == old(db.contactMessages)[m.id := m]
              && resp == Ok("Pesan berhasil dikirim", NewId(m.id))
  {
    var parsed := ParseContactForm(body, isEmail);
    if parsed.Rejected? {
      return Invalid(parsed.issues);
    }
    if fails {
      return Failure(500, InternalError);
    }
    var m := db.CreateContactMessage(parsed.value, now);
    resp := Ok("Pesan berhasil dikirim", NewId(m.id));
  }

  /** GET /api/contact-messages (protected): every message, newest first. */
  function ListContactMessages(db: DatabaseStorage, s: Session, fails: bool): (r: Response)
    reads db, s
    requires db.Valid()
    ensures !Authenticated(s) <==> r == Unauthorized
    ensures Authenticated(s) && fails ==> r == Failure(500, "Gagal mengambil data pesan")
    ensures Authenticated(s) && !fails ==> r.code == 200 && r.reply.Bare? && r.reply.data.Messages?
    ensures Authenticated(s) && !fails ==>
              var ms := r.reply.data.messages;
              && (forall m :: m in ms <==> m in db.contactMessages.Values)
              && Distinct(ms)
              && (forall i, j :: 0 <= i < j < |ms| ==> ms[i].createdAt >= ms[j].createdAt)
  {
    if !Authenticated(s) then Unauthorized
    else if fails then Failure(500, "Gagal mengambil data pesan")
    else Response(200, Bare(Messages(db.GetContactMessages())))
  }

  /** PUT /api/contact-messages/:id/status (protected). Succeeds whether or not the id exists. */
  method PutContactStatus(db: DatabaseStorage, s: Session, id: Id, status: string, fails: bool)
    returns (resp: Response)
    requires db.Valid()
    modifies db`contactMessages
    ensures db.Valid()
    ensures !Authenticated(s) ==> resp == Unauthorized && db.contactMessages == old(db.contactMessages)
    ensures Authenticated(s) && fails ==>
              resp == Failure(500, "Gagal mengupdate status pesan") &&
              db.contactMessages == old(db.contactMessages)
    ensures Authenticated(s) && !fails ==> resp == Ok("Status berhasil diupdate", NoData)
    ensures Authenticated(s) && !fails && id in old(db.contactMessages) ==>
              db.contactMessages == old(db.contactMessages)[id := old(db.contactMessages)[id].(status := status)]
    ensures id !in old(db.contactMessages) ==> db.contactMessages == old(db.contactMessages)
  {
    if !Authenticated(s) {
      return Unauthorized;
    }
    if fails {
      return Failure(500, "Gagal mengupdate status pesan");
    }
    db.UpdateContactMessageStatus(id, status);
    resp := Ok("Status berhasil diupdate", NoData);
  }

  // News

  /** GET /api/news: with `?published=true` exactly the published articles, otherwise all. */
  function ListNews(db: DatabaseStorage, published: Option<string>, fails: bool): (r: Response)
    reads db
    requires db.Valid()
    ensures fails ==> r == Failure(500, "Gagal mengambil berita")
    ensures !fails ==> r.code == 200 && r.reply.Bare? && r.reply.data.Articles?
    ensures !fails && published == Some("true") ==>
              forall a :: a in r.reply.data.articles <==>
                            a in db.newsArticles.Values && a.published == Some(true)
    ensures !fails && published != Some("true") ==>
              forall a :: a in r.reply.data.articles <==> a in db.newsArticles.Values
    ensures !fails ==>
              var arts := r.reply.data.articles;
              && Distinct(arts)
              && (forall i, j :: 0 <= i < j < |arts| ==> arts[i].createdAt >= arts[j].createdAt)
  {
    if fails then Failure(500, "Gagal mengambil berita")
    else Response(200, Bare(Articles(db.GetNewsArticles(QueryFlag(published)))))
  }

  /** GET /api/news/:id. */
  function GetNews(db: DatabaseStorage, id: Id, fails: bool): (r: Response)
    reads db
    requires db.Valid()
    ensures fails ==> r == Failure(500, "Gagal mengambil berita")
    ensures !fails ==> (id !in db.newsArticles <==> r == Failure(404, "Berita tidak ditemukan"))
    ensures !fails && id in db.newsArticles ==>
              r == Response(200, Bare(Article(Some(db.newsArticles[id]))))
  {
    if fails then Failure(500, "Gagal mengambil berita")
    else match db.GetNewsArticle(id)
    case None => Failure(404, "Berita tidak ditemukan")
    case Some(a) => Response(200, Bare(Article(Some(a))))
  }

  /** POST /api/news (protected). */
  method PostNews(db: DatabaseStorage, s: Session, body: Body, now: Time, fails: bool)
    returns (resp: Response)
    requires db.Valid()
    modifies db`newsArticles, db`nextId
    ensures db.Valid()
    ensures !Authenticated(s) ==>
              resp == Unauthorized && db.newsArticles == old(db.newsArticles) && db.nextId == old(db.nextId)
    ensures Authenticated(s) && ParseNewsArticle(body).Rejected? ==>
              && resp == Invalid(ParseNewsArticle(body).issues)
              && db.newsArticles == old(db.newsArticles) && db.nextId == old(db.nextId)
    ensures Authenticated(s) && ParseNewsArticle(body).Parsed? && fails ==>
              && resp == Failure(500, InternalError)
              && db.newsArticles == old(db.newsArticles) && db.nextId == old(db.nextId)
    ensures Authenticated(s) && ParseNewsArticle(body).Parsed? && !fails ==>
              var a := CreatedNewsArticle(old(db.nextId), ParseNewsArticle(body).value, now);
              && db.newsArticles == old(db.newsArticles)[a.id := a]
              && resp == Ok("Berita berhasil dibuat", Article(Some(a)))
  {
    if !Authenticated(s) {
      return Unauthorized;
    }
    var parsed := ParseNewsArticle(body);
    if parsed.Rejected? {
      return Invalid(parsed.issues);
    }
    if fails {
      return Failure(500, InternalError);
    }
    var a := db.CreateNewsArticle(parsed.value, now);
    resp := Ok("Berita berhasil dibuat", Article(Some(a)));
  }

  /** PUT /api/news/:id (protected). A missing id still answers success, with no article. */
  method PutNews(db: DatabaseStorage, s: Session, id: Id, body: Body, now: Time, fails: bool)
    returns (resp: Response)
    requires db.Valid()
    modifies db`newsArticles
    ensures db.Valid()
    ensures !Authenticated(s) ==> resp == Unauthorized && db.newsArticles == old(db.newsArticles)
    ensures Authenticated(s) && ParseNewsPatch(body).Rejected? ==>
              resp == Invalid(ParseNewsPatch(body).issues) && db.newsArticles == old(db.newsArticles)
    ensures Authenticated(s) && ParseNewsPatch(body).Parsed? && fails ==>
              resp == Failure(500, InternalError) && db.newsArticles == old(db.newsArticles)
    ensures Authenticated(s) && ParseNewsPatch(body).Parsed? && !fails && id !in old(db.newsArticles) ==>
              resp == Ok("Berita berhasil diupdate", Article(None)) &&
              db.newsArticles == old(db.newsArticles)
    ensures Authenticated(s) && ParseNewsPatch(body).Parsed? && !fails && id in old(db.newsArticles) ==>
              var a := ApplyNewsPatch(old(db.newsArticles)[id], ParseNewsPatch(body).value, now);
              && db.newsArticles == old(db.newsArticles)[id := a]
              && resp == Ok("Berita berhasil diupdate", Article(Some(a)))
  {
    if !Authenticated(s) {
      return Unauthorized;
    }
    var parsed := ParseNewsPatch(body);
    if parsed.Rejected? {
      return Invalid(parsed.issues);
    }
    if fails {
      return Failure(500, InternalError);
    }
    var a := db.UpdateNewsArticle(id, parsed.value, now);
    resp := Ok("Berita berhasil diupdate", Article(a));
  }

  /** DELETE /api/news/:id (protected): success whether or not the article existed. */
  method DeleteNews(db: DatabaseStorage, s: Session, id: Id, fails: bool) returns (resp: Response)
    requires db.Valid()
    modifies db`newsArticles
    ensures db.Valid()
    ensures !Authenticated(s) ==> resp == Unauthorized && db.newsArticles == old(db.newsArticles)
    ensures Authenticated(s) && fails ==>
              resp == Failure(500, "Gagal menghapus berita") && db.newsArticles == old(db.newsArticles)
    ensures Authenticated(s) && !fails ==>
              resp == Ok("Berita berhasil dihapus", NoData) &&
              db.newsArticles == old(db.newsArticles) - {id}
  {
    if !Authenticated(s) {
      return Unauthorized;
    }
    if fails {
      return Failure(500, "Gagal menghapus berita");
    }
    db.DeleteNewsArticle(id);
    resp := Ok("Berita berhasil dihapus", NoData);
  }

  // Student registrations

  /** POST /api/registrations (public): a new registration starts pending, without notes. */
  method PostRegistration(db: DatabaseStorage, body: Body, now: Time, fails: bool)
    returns (resp: Response)
    requires db.Valid()
    modifies db`studentRegistrations, db`nextId
    ensures db.Valid()
    ensures ParseStudentRegistration(body).Rejected? ==>
              && resp == Invalid(ParseStudentRegistration(body).issues)
              && db.studentRegistrations == old(db.studentRegistrations)
              && db.nextId == old(db.nextId)
    ensures ParseStudentRegistration(body).Parsed? && fails ==>
              && resp == Failure(500, InternalError)
              && db.studentRegistrations == old(db.studentRegistrations)
              && db.nextId == old(db.nextId)
    ensures ParseStudentRegistration(body).Parsed? && !fails ==>
              var r := StudentRegistrationRow(old(db.nextId), ParseStudentRegistration(body).value, now);
              && r.status == "pending" && r.notes == None
              && db.studentRegistrations == old(db.studentRegistrations)[r.id := r]
              && resp == Ok("Pendaftaran berhasil dikirim", Registration(r))
  {
    var parsed := ParseStudentRegistration(body);
    if parsed.Rejected? {
      return Invalid(parsed.issues);
    }
    if fails {
      return Failure(500, InternalError);
    }
    var r := db.CreateStudentRegistration(parsed.value, now);
    resp := Ok("Pendaftaran berhasil dikirim", Registration(r));
  }

  /** GET /api/registrations (protected). */
  function ListRegistrations(db: DatabaseStorage, s: Session, fails: bool): (r: Response)
    reads db, s
    requires db.Valid()
    ensures !Authenticated(s) <==> r == Unauthorized
    ensures Authenticated(s) && fails ==> r == Failure(500, "Gagal mengambil data pendaftaran")
    ensures Authenticated(s) && !fails ==>
              r.code == 200 && r.reply.Bare? && r.reply.data.Registrations?
    ensures Authenticated(s) && !fails ==>
              var rs := r.reply.data.registrations;
              && (forall x :: x in rs <==> x in db.studentRegistrations.Values)
              && Distinct(rs)
              && (forall i, j :: 0 <= i < j < |rs| ==> rs[i].createdAt >= rs[j].createdAt)
  {
    if !Authenticated(s) then Unauthorized
    else if fails then Failure(500, "Gagal mengambil data pendaftaran")
    else Response(200, Bare(Registrations(db.GetStudentRegistrations())))
  }

  /** GET /api/registrations/:id (protected). */
  function GetRegistration(db: DatabaseStorage, s: Session, id: Id, fails: bool): (r: Response)
    reads db, s
    requires db.Valid()
    ensures !Authenticated(s) ==> r == Unauthorized
    ensures Authenticated(s) && fails ==> r == Failure(500, "Gagal mengambil data pendaftaran")
    ensures Authenticated(s) && !fails && id !in db.studentRegistrations ==>
              r == Failure(404, "Pendaftaran tidak ditemukan")
    ensures Authenticated(s) && !fails && id in db.studentRegistrations ==>
              r == Response(200, Bare(Registration(db.studentRegistrations[id])))
  {
    if !Authenticated(s) then Unauthorized
    else if fails then Failure(500, "Gagal mengambil data pendaftaran")
    else match db.GetStudentRegistration(id)
      case None => Failure(404, "Pendaftaran tidak ditemukan")
      case Some(x) => Response(200, Bare(Registration(x)))
  }

  /** PUT /api/registrations/:id/status (protected). */
  method PutRegistrationStatus(db: DatabaseStorage, s: Session, id: Id, status: string,
                               notes: Option<string>, now: Time, fails: bool)
    returns (resp: Response)
    requires db.Valid()
    modifies db`studentRegistrations
    ensures db.Valid()
    ensures !Authenticated(s) ==>
              resp == Unauthorized && db.studentRegistrations == old(db.studentRegistrations)
    ensures Authenticated(s) && fails ==>
              && resp == Failure(500, "Gagal mengupdate status pendaftaran")
              && db.studentRegistrations == old(db.studentRegistrations)
    ensures Authenticated(s) && !fails ==> resp == Ok("Status pendaftaran berhasil diupdate", NoData)
    ensures Authenticated(s) && !fails && id in old(db.studentRegistrations) ==>
              db.studentRegistrations == old(db.studentRegistrations)[id :=
                WithRegistrationStatus(old(db.studentRegistrations)[id], status, notes, now)]
    ensures id !in old(db.studentRegistrations) ==>
              db.studentRegistrations == old(db.studentRegistrations)
  {
    if !Authenticated(s) {
      return Unauthorized;
    }
    if fails {
      return Failure(500, "Gagal mengupdate status pendaftaran");
    }
    db.UpdateStudentRegistrationStatus(id, status, notes, now);
    resp := Ok("Status pendaftaran berhasil diupdate", NoData);
  }

  // Alumni

  /** GET /api/alumni: `?approved=true` and `?featured=true` are the only filters. */
  function ListAlumni(db: DatabaseStorage, approved: Option<string>, featured: Option<string>,
                     fails: bool): (r: Response)
    reads db
    requires db.Valid()
    ensures fails ==> r == Failure(500, "Gagal mengambil data alumni")
    ensures !fails ==> r.code == 200 && r.reply.Bare? && r.reply.data.AlumniList?
    ensures !fails ==>
              forall a :: a in r.reply.data.alumni <==>
                && a in db.alumni.Values
                && (approved == Some("true") ==> a.approved == Some(true))
                && (featured == Some("true") ==> a.featured == Some(true))
    ensures !fails ==>
              var rs := r.reply.data.alumni;
              && Distinct(rs)
              && (forall i, j :: 0 <= i < j < |rs| ==> rs[i].graduationYear >= rs[j].graduationYear)
  {
    if fails then Failure(500, "Gagal mengambil data alumni")
    else
    var rows := db.GetAlumni(QueryFlag(approved), QueryFlag(featured));
    assert forall a :: AlumniWhere(a, QueryFlag(approved), QueryFlag(featured)) <==>
                         (approved == Some("true") ==> a.approved == Some(true)) &&
                         (featured == Some("true") ==> a.featured == Some(true));
    Response(200, Bare(AlumniList(rows)))
  }

  /** GET /api/alumni/:id. */
  function GetAlumnus(db: DatabaseStorage, id: Id, fails: bool): (r: Response)
    reads db
    requires db.Valid()
    ensures fails ==> r == Failure(500, "Gagal mengambil data alumni")
    ensures !fails ==> (id !in db.alumni <==> r == Failure(404, "Alumni tidak ditemukan"))
    ensures !fails && id in db.alumni ==> r == Response(200, Bare(Alumnus(Some(db.alumni[id]))))
  {
    if fails then Failure(500, "Gagal mengambil data alumni")
    else match db.GetAlumniById(id)
    case None => Failure(404, "Alumni tidak ditemukan")
    case Some(a) => Response(200, Bare(Alumnus(Some(a))))
  }

  /** POST /api/alumni (public): a submission waits unapproved and unfeatured for review,
      whatever `approved` or `featured` the body carries. */
  method PostAlumni(db: DatabaseStorage, body: Body, now: Time, fails: bool) returns (resp: Response)
    requires db.Valid()
    modifies db`alumni, db`nextId
    ensures db.Valid()
    ensures ParseAlumni(body).Rejected? ==>
              && resp == Invalid(ParseAlumni(body).issues)
              && db.alumni == old(db.alumni) && db.nextId == old(db.nextId)
    ensures ParseAlumni(body).Parsed? && fails ==>
              && resp == Failure(500, InternalError)
              && db.alumni == old(db.alumni) && db.nextId == old(db.nextId)
    ensures ParseAlumni(body).Parsed? && !fails ==>
              var a := AlumniRow(old(db.nextId), ParseAlumni(body).value, now);
              && a.approved == Some(false) && a.featured == Some(false)
              && db.alumni == old(db.alumni)[a.id := a]
              && resp == Ok("Data alumni berhasil dikirim untuk review", Alumnus(Some(a)))
  {
    var parsed := ParseAlumni(body);
    if parsed.Rejected? {
      return Invalid(parsed.issues);
    }
    if fails {
      return Failure(500, InternalError);
    }
    var a := db.CreateAlumni(parsed.value, now);
    resp := Ok("Data alumni berhasil dikirim untuk review", Alumnus(Some(a)));
  }

  /** PUT /api/alumni/:id (protected): the partial schema cannot touch `approved`/`featured`. */
  method PutAlumni(db: DatabaseStorage, s: Session, id: Id, body: Body, now: Time, fails: bool)
    returns (resp: Response)
    requires db.Valid()
    modifies db`alumni
    ensures db.Valid()
    ensures !Authenticated(s) ==> resp == Unauthorized && db.alumni == old(db.alumni)
    ensures Authenticated(s) && ParseAlumniPatch(body).Rejected? ==>
              resp == Invalid(ParseAlumniPatch(body).issues) && db.alumni == old(db.alumni)
    ensures Authenticated(s) && ParseAlumniPatch(body).Parsed? && fails ==>
              resp == Failure(500, InternalError) && db.alumni == old(db.alumni)
    ensures Authenticated(s) && ParseAlumniPatch(body).Parsed? && !fails && id !in old(db.alumni) ==>
              resp == Ok("Data alumni berhasil diupdate", Alumnus(None)) && db.alumni == old(db.alumni)
    ensures Authenticated(s) && ParseAlumniPatch(body).Parsed? && !fails && id in old(db.alumni) ==>
              var a := ApplyAlumniPatch(old(db.alumni)[id], ParseAlumniPatch(body).value, now);
              && a.approved == old(db.alumni)[id].approved && a.featured == old(db.alumni)[id].featured
              && db.alumni == old(db.alumni)[id := a]
              && resp == Ok("Data alumni berhasil diupdate", Alumnus(Some(a)))
  {
    if !Authenticated(s) {
      return Unauthorized;
    }
    var parsed := ParseAlumniPatch(body);
    if parsed.Rejected? {
      return Invalid(parsed.issues);
    }
    if fails {
      return Failure(500, InternalError);
    }
    var a := db.UpdateAlumni(id, parsed.value, now);
    resp := Ok("Data alumni berhasil diupdate", Alumnus(a));
  }

  /** PUT /api/alumni/:id/status (protected): the only way to approve or feature an alumnus. */
  method PutAlumniStatus(db: DatabaseStorage, s: Session, id: Id, approved: bool,
                         featured: Option<bool>, now: Time, fails: bool) returns (resp: Response)
    requires db.Valid()
    modifies db`alumni
    ensures db.Valid()
    ensures !Authenticated(s) ==> resp == Unauthorized && db.alumni == old(db.alumni)
    ensures Authenticated(s) && fails ==>
              resp == Failure(500, "Gagal mengupdate status alumni") && db.alumni == old(db.alumni)
    ensures Authenticated(s) && !fails ==> resp == Ok("Status alumni berhasil diupdate", NoData)
    ensures Authenticated(s) && !fails && id in old(db.alumni) ==>
              db.alumni == old(db.alumni)[id := WithAlumniStatus(old(db.alumni)[id], approved, featured, now)]
    ensures id !in old(db.alumni) ==> db.alumni == old(db.alumni)
  {
    if !Authenticated(s) {
      return Unauthorized;
    }
    if fails {
      return Failure(500, "Gagal mengupdate status alumni");
    }
    db.UpdateAlumniStatus(id, approved, featured, now);
    resp := Ok("Status alumni berhasil diupdate", NoData);
  }

  // Academic events. The date rule is the parameter `asDate`; on a JSON body it is `JsonDate`,
  // under which creating an event always answers 400.

  /** GET /api/events: `?public=true` keeps the public events; ascending by date. */
  function ListEvents(db: DatabaseStorage, isPublic: Option<string>, fails: bool): (r: Response)
    reads db
    requires db.Valid()
    ensures fails ==> r == Failure(500, "Gagal mengambil data kalender akademik")
    ensures !fails ==> r.code == 200 && r.reply.Bare? && r.reply.data.Events?
    ensures !fails ==>
              forall e :: e in r.reply.data.events <==>
                e in db.academicEvents.Values && (isPublic == Some("true") ==> e.isPublic == Some(true))
    ensures !fails ==>
              var es := r.reply.data.events;
              && Distinct(es)
              && (forall i, j :: 0 <= i < j < |es| ==> es[i].eventDate <= es[j].eventDate)
  {
    if fails then Failure(500, "Gagal mengambil data kalender akademik")
    else Response(200, Bare(Events(db.GetAcademicEvents(QueryFlag(isPublic)))))
  }

  /** GET /api/events/:id. */
  function GetEvent(db: DatabaseStorage, id: Id, fails: bool): (r: Response)
    reads db
    requires db.Valid()
    ensures fails ==> r == Failure(500, "Gagal mengambil data event")
    ensures !fails ==> (id !in db.academicEvents <==> r == Failure(404, "Event tidak ditemukan"))
    ensures !fails && id in db.academicEvents ==>
              r == Response(200, Bare(Event(Some(db.academicEvents[id]))))
  {
    if fails then Failure(500, "Gagal mengambil data event")
    else match db.GetAcademicEvent(id)
    case None => Failure(404, "Event tidak ditemukan")
    case Some(e) => Response(200, Bare(Event(Some(e))))
  }

  /** POST /api/events (protected). */
  method PostEvent(db: DatabaseStorage, s: Session, body: Body, asDate: Value -> Option<Time>,
                   now: Time, fails: bool) returns (resp: Response)
    requires db.Valid()
    modifies db`academicEvents, db`nextId
    ensures db.Valid()
    ensures !Authenticated(s) ==>
              resp == Unauthorized && db.academicEvents == old(db.academicEvents) && db.nextId == old(db.nextId)
    ensures Authenticated(s) && ParseEvent(body, asDate).Rejected? ==>
              && resp == Invalid(ParseEvent(body, asDate).issues)
              && db.academicEvents == old(db.academicEvents) && db.nextId == old(db.nextId)
    ensures Authenticated(s) && ParseEvent(body, asDate).Parsed? && fails ==>
              && resp == Failure(500, InternalError)
              && db.academicEvents == old(db.academicEvents) && db.nextId == old(db.nextId)
    ensures Authenticated(s) && (forall v :: asDate(v).None?) ==>
              resp.code == 400 && db.academicEvents == old(db.academicEvents)
    ensures Authenticated(s) && ParseEvent(body, asDate).Parsed? && !fails ==>
              var e := AcademicEventRow(old(db.nextId), ParseEvent(body, asDate).value, now);
              && db.academicEvents == old(db.academicEvents)[e.id := e]
              && resp == Ok("Event berhasil dibuat", Event(Some(e)))
  {
    if !Authenticated(s) {
      return Unauthorized;
    }
    var parsed := ParseEvent(body, asDate);
    if parsed.Rejected? {
      return Invalid(parsed.issues);
    }
    if fails {
      return Failure(500, InternalError);
    }
    var e := db.CreateAcademicEvent(parsed.value, now);
    resp := Ok("Event berhasil dibuat", Event(Some(e)));
  }

  /** PUT /api/events/:id (protected). A missing id still answers success, with no event. */
  method PutEvent(db: DatabaseStorage, s: Session, id: Id, body: Body, asDate: Value -> Option<Time>,
                  now: Time, fails: bool) returns (resp: Response)
    requires db.Valid()
    modifies db`academicEvents
    ensures db.Valid()
    ensures !Authenticated(s) ==> resp == Unauthorized && db.academicEvents == old(db.academicEvents)
    ensures Authenticated(s) && ParseEventPatch(body, asDate).Rejected? ==>
              && resp == Invalid(ParseEventPatch(body, asDate).issues)
              && db.academicEvents == old(db.academicEvents)
    ensures Authenticated(s) && ParseEventPatch(body, asDate).Parsed? && fails ==>
              resp == Failure(500, InternalError) && db.academicEvents == old(db.academicEvents)
    ensures Authenticated(s) && (forall v :: asDate(v).None?) && "eventDate" in body ==>
              resp.code == 400 && db.academicEvents == old(db.academicEvents)
    ensures Authenticated(s) && ParseEventPatch(body, asDate).Parsed? && !fails &&
            id !in old(db.academicEvents) ==>
              resp == Ok("Event berhasil diupdate", Event(None)) &&
              db.academicEvents == old(db.academicEvents)
    ensures Authenticated(s) && ParseEventPatch(body, asDate).Parsed? && !fails &&
            id in old(db.academicEvents) ==>
              var e := ApplyEventPatch(old(db.academicEvents)[id], ParseEventPatch(body, asDate).value, now);
              && db.academicEvents == old(db.academicEvents)[id := e]
              && resp == Ok("Event berhasil diupdate", Event(Some(e)))
  {
    if !Authenticated(s) {
      return Unauthorized;
    }
    var parsed := ParseEventPatch(body, asDate);
    if parsed.Rejected? {
      return Invalid(parsed.issues);
    }
    if fails {
      return Failure(500, InternalError);
    }
    var e := db.UpdateAcademicEvent(id, parsed.value, now);
    resp := Ok("Event berhasil diupdate", Event(e));
  }

  /** DELETE /api/events/:id (protected): success whether or not the event existed. */
  method DeleteEvent(db: DatabaseStorage, s: Session, id: Id, fails: bool) returns (resp: Response)
    requires db.Valid()
    modifies db`academicEvents
    ensures db.Valid()
    ensures !Authenticated(s) ==> resp == Unauthorized && db.academicEvents == old(db.academicEvents)
    ensures Authenticated(s) && fails ==>
              resp == Failure(500, "Gagal menghapus event") && db.academicEvents == old(db.academicEvents)
    ensures Authenticated(s) && !fails ==>
              resp == Ok("Event berhasil dihapus", NoData) &&
              db.academicEvents == old(db.academicEvents) - {id}
  {
    if !Authenticated(s) {
      return Unauthorized;
    }
    if fails {
      return Failure(500, "Gagal menghapus event");
    }
    db.DeleteAcademicEvent(id);
    resp := Ok("Event berhasil dihapus", NoData);
  }
}
