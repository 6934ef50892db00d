/** Validation of JSON request bodies against the insert schemas (`insert*Schema.parse`, its
    `.partial()` form, and the contact form's stricter extension). A body key holding `undefined`
    is a key absent from the map. Keys a schema does not pick are ignored, as zod strips them. */
module InsertSchemas {
  import opened Wrappers
  import opened Schema

  /** A JSON value; arrays and objects are `Compound`. */
  datatype Value = Null | Bool(b: bool) | Num(n: int) | Str(s: string) | Compound

  type Body = map<string, Value>

  datatype IssueCode = Required | InvalidType | TooSmall(minimum: int) | TooBig(maximum: int) | InvalidEmail

  /** One entry of zod's `error.errors`: which key, which rule, and the rule's message. */
  datatype Issue = Issue(path: string, code: IssueCode, message: string)

  /** The outcome of `schema.parse(body)`: the typed payload, or every issue found. */
  datatype Parse<T> = Parsed(value: T) | Rejected(issues: seq<Issue>)

  datatype FieldParse<T> = Got(value: T) | Bad(issue: Issue)

  function Issues<T>(f: FieldParse<T>): (r: seq<Issue>)
    ensures |r| == (if f.Bad? then 1 else 0)
  {
    if f.Bad? then [f.issue] else []
  }

  const RequiredMessage: string := "Required"
  const TypeMessage: string := "Invalid type"

  // What a key must hold for a schema to accept the body, and the payload field it then gives.

  /** A required text column: the key holds a string. */
  predicate HasString(b: Body, key: string) {
    key in b && b[key].Str?
  }

  /** The bounds of PostgreSQL's `integer`, which the generated schema checks with `gte`/`lte`. */
  const MinInt32: int := -0x8000_0000
  const MaxInt32: int := 0x7FFF_FFFF

  predicate IsInt32(n: int) {
    MinInt32 <= n <= MaxInt32
  }

  /** The required integer column: the key holds a number within the 32-bit range. */
  predicate HasInt(b: Body, key: string) {
    key in b && b[key].Num? && IsInt32(b[key].n)
  }

  /** An optional text column: the key is absent or holds a string. */
  predicate MayString(b: Body, key: string) {
    key !in b || b[key].Str?
  }

  /** An optional integer column: the key is absent or holds a number within the 32-bit range. */
  predicate MayInt(b: Body, key: string) {
    key !in b || (b[key].Num? && IsInt32(b[key].n))
  }

  /** A nullable text column: the key is absent, `null`, or a string. */
  predicate MayNullableString(b: Body, key: string) {
    key !in b || b[key].Null? || b[key].Str?
  }

  /** A nullable boolean column: the key is absent, `null`, or a boolean. */
  predicate MayNullableBool(b: Body, key: string) {
    key !in b || b[key].Null? || b[key].Bool?
  }

  function StringField(b: Body, key: string): Field<string>
    requires MayString(b, key)
  {
    if key in b then Supplied(b[key].s) else Omitted
  }

  function IntField(b: Body, key: string): Field<int>
    requires MayInt(b, key)
  {
    if key in b then Supplied(b[key].n) else Omitted
  }

  function NullableStringField(b: Body, key: string): Field<Option<string>>
    requires MayNullableString(b, key)
  {
    if key !in b then Omitted else if b[key].Null? then Supplied(None) else Supplied(Some(b[key].s))
  }

  function NullableBoolField(b: Body, key: string): Field<Option<bool>>
    requires MayNullableBool(b, key)
  {
    if key !in b then Omitted else if b[key].Null? then Supplied(None) else Supplied(Some(b[key].b))
  }

  /** `z.string()` on a `notNull()` column. */
  function RequiredString(b: Body, key: string): (r: FieldParse<string>)
    ensures r.Got? <==> HasString(b, key)
    ensures r.Got? ==> r.value == b[key].s
    ensures r.Bad? ==> r.issue.path == key
  {
    if key !in b then Bad(Issue(key, Required, RequiredMessage))
    else if b[key].Str? then Got(b[key].s)
    else Bad(Issue(key, InvalidType, TypeMessage))
  }

  /** `z.string().optional()`: a `notNull()` column with a default, or any column under `.partial()`. */
  function OptionalString(b: Body, key: string): (r: FieldParse<Field<string>>)
    ensures r.Got? <==> MayString(b, key)
    ensures r.Got? ==> r.value == StringField(b, key)
    ensures r.Bad? ==> r.issue.path == key
  {
    if key !in b then Got(Omitted)
    else if b[key].Str? then Got(Supplied(b[key].s))
    else Bad(Issue(key, InvalidType, TypeMessage))
  }

  /** `z.string().nullable().optional()`: a nullable text column. */
  function NullableString(b: Body, key: string): (r: FieldParse<Field<Option<string>>>)
    ensures r.Got? <==> MayNullableString(b, key)
    ensures r.Got? ==> r.value == NullableStringField(b, key)
    ensures r.Bad? ==> r.issue.path == key
  {
    if key !in b then Got(Omitted)
    else if b[key].Null? then Got(Supplied(None))
    else if b[key].Str? then Got(Supplied(Some(b[key].s)))
    else Bad(Issue(key, InvalidType, TypeMessage))
  }

  /** `z.boolean().nullable().optional()`: a nullable boolean column with a default. */
  function NullableBool(b: Body, key: string): (r: FieldParse<Field<Option<bool>>>)
    ensures r.Got? <==> MayNullableBool(b, key)
    ensures r.Got? ==> r.value == NullableBoolField(b, key)
    ensures r.Bad? ==> r.issue.path == key
  {
    if key !in b then Got(Omitted)
    else if b[key].Null? then Got(Supplied(None))
    else if b[key].Bool? then Got(Supplied(Some(b[key].b)))
    else Bad(Issue(key, InvalidType, TypeMessage))
  }

  /** The issue `gte`/`lte` raise for a number outside the 32-bit range, or None within it. */
  function RangeIssue(key: string, n: int): (r: Option<Issue>)
    ensures r.None? <==> IsInt32(n)
    ensures n < MinInt32 ==> r == Some(Issue(key, TooSmall(MinInt32), "Number must be greater than or equal to -2147483648"))
    ensures n > MaxInt32 ==> r == Some(Issue(key, TooBig(MaxInt32), "Number must be less than or equal to 2147483647"))
  {
    if n < MinInt32 then Some(Issue(key, TooSmall(MinInt32), "Number must be greater than or equal to -2147483648"))
    else if n > MaxInt32 then Some(Issue(key, TooBig(MaxInt32), "Number must be less than or equal to 2147483647"))
    else None
  }

  /** `z.number().int().gte(-2147483648).lte(2147483647)` on the `notNull()` integer column. */
  function RequiredInt(b: Body, key: string): (r: FieldParse<int>)
    ensures r.Got? <==> HasInt(b, key)
    ensures r.Got? ==> r.value == b[key].n
    ensures r.Bad? ==> r.issue.path == key
    ensures key in b && b[key].Num? && r.Bad? ==> Some(r.issue) == RangeIssue(key, b[key].n)
  {
    if key !in b then Bad(Issue(key, Required, RequiredMessage))
    else if !b[key].Num? then Bad(Issue(key, InvalidType, TypeMessage))
    else if RangeIssue(key, b[key].n).Some? then Bad(RangeIssue(key, b[key].n).value)
    else Got(b[key].n)
  }

  /** The same rule made `.optional()`. */
  function OptionalInt(b: Body, key: string): (r: FieldParse<Field<int>>)
    ensures r.Got? <==> MayInt(b, key)
    ensures r.Got? ==> r.value == IntField(b, key)
    ensures r.Bad? ==> r.issue.path == key
    ensures key in b && b[key].Num? && r.Bad? ==> Some(r.issue) == RangeIssue(key, b[key].n)
  {
    if key !in b then Got(Omitted)
    else if !b[key].Num? then Bad(Issue(key, InvalidType, TypeMessage))
    else if RangeIssue(key, b[key].n).Some? then Bad(RangeIssue(key, b[key].n).value)
    else Got(Supplied(b[key].n))
  }

  /** The body restricted to `keys`. */
  function Pick(b: Body, keys: set<string>): Body {
    map k | k in b && k in keys :: b[k]
  }

  const UserKeys: set<string> := {"username", "password", "role"}

  /** `insertUserSchema`: `role` has a column default, so it may be left out, but not `null`. */
  function ParseUser(b: Body): (r: Parse<InsertUser>)
    ensures r.Parsed? <==> HasString(b, "username") && HasString(b, "password") && MayString(b, "role")
    ensures r.Parsed? ==>
              r.value == InsertUser(b["username"].s, b["password"].s, StringField(b, "role"))
    ensures r.Rejected? ==> r.issues != []
  {
    var username := RequiredString(b, "username");
    var password := RequiredString(b, "password");
    var role := OptionalString(b, "role");
    if username.Got? && password.Got? && role.Got? then
      Parsed(InsertUser(username.value, password.value, role.value))
    else
      Rejected(Issues(username) + Issues(password) + Issues(role))
  }

  lemma UserReadsOnlyPickedKeys(b: Body)
    ensures ParseUser(Pick(b, UserKeys)) == ParseUser(b)
  {
    var p := Pick(b, UserKeys);
    assert RequiredString(p, "username") == RequiredString(b, "username") by { PickAgrees(b, UserKeys, "username"); }
    assert RequiredString(p, "password") == RequiredString(b, "password") by { PickAgrees(b, UserKeys, "password"); }
    assert OptionalString(p, "role") == OptionalString(b, "role") by { PickAgrees(b, UserKeys, "role"); }
  }

  // The contact form: `insertContactMessageSchema.extend` with trimmed minimum lengths and an
  // e-mail check. Trimming is part of the parse, so the stored strings are the trimmed ones.

  /** The characters JavaScript's `String.prototype.trim` removes: WhiteSpace and LineTerminator. */
  predicate IsTrimmed(c: char) {
    || c == '\t' || c == '\n' || c == '\U{000B}' || c == '\U{000C}' || c == '\r' || c == ' '
    || c == '\U{00A0}' || c == '\U{1680}' || ('\U{2000}' <= c <= '\U{200A}')
    || c == '\U{2028}' || c == '\U{2029}' || c == '\U{202F}' || c == '\U{205F}'
    || c == '\U{3000}' || c == '\U{FEFF}'
  }

  function TrimStart(s: string): (t: string)
    ensures |t| <= |s| && t == s[|s| - |t|..]
    ensures forall i :: 0 <= i < |s| - |t| ==> IsTrimmed(s[i])
    ensures t != [] ==> !IsTrimmed(t[0])
  {
    if s != [] && IsTrimmed(s[0]) then TrimStart(s[1..]) else s
  }

  function TrimEnd(s: string): (t: string)
    ensures |t| <= |s| && t == s[..|t|]
    ensures forall i :: |t| <= i < |s| ==> IsTrimmed(s[i])
    ensures t != [] ==> !IsTrimmed(t[|t| - 1])
  {
    if s != [] && IsTrimmed(s[|s| - 1]) then TrimEnd(s[..|s| - 1]) else s
  }

  /** `s.trim()`: `s` without its leading and trailing white space. */
  function Trim(s: string): (t: string)
    ensures |t| <= |s|
    ensures t != [] ==> !IsTrimmed(t[0]) && !IsTrimmed(t[|t| - 1])
  {
    TrimEnd(TrimStart(s))
  }

  /** Trimming removes white space at the two ends of `s` and nothing else: the result is a
      slice of `s` with only white space before and after it. */
  lemma TrimRemovesOnlyEnds(s: string)
    ensures exists i, j ::
              && 0 <= i <= j <= |s| && Trim(s) == s[i..j]
              && (forall k :: 0 <= k < i ==> IsTrimmed(s[k]))
              && (forall k :: j <= k < |s| ==> IsTrimmed(s[k]))
  {
    var i := |s| - |TrimStart(s)|;
    TrimEndOfSuffix(s, i);
    var j := i + |TrimEnd(s[i..])|;
    assert Trim(s) == TrimEnd(s[i..]);
    assert Blank(s, 0, i) && Blank(s, j, |s|);
  }

  /** Only white space in `s[lo..hi]`. */
  ghost predicate Blank(s: string, lo: int, hi: int) {
    forall k :: lo <= k < hi && 0 <= k < |s| ==> IsTrimmed(s[k])
  }

  /** Trimming the end of the suffix `s[i..]` keeps a slice of `s` followed by white space only. */
  lemma TrimEndOfSuffix(s: string, i: nat)
    requires i <= |s|
    ensures i + |TrimEnd(s[i..])| <= |s|
    ensures TrimEnd(s[i..]) == s[i..i + |TrimEnd(s[i..])|]
    ensures forall k :: i + |TrimEnd(s[i..])| <= k < |s| ==> IsTrimmed(s[k])
  {
    var u := s[i..];
    var t := TrimEnd(u);
    forall k | i + |t| <= k < |s| ensures IsTrimmed(s[k]) {
      assert s[k] == u[k - i];
    }
  }

  /** A string with no white space at either end is its own trimmed form. */
  lemma TrimKeepsTrimmed(s: string)
    requires s != [] ==> !IsTrimmed(s[0]) && !IsTrimmed(s[|s| - 1])
    ensures Trim(s) == s
  {
    assert TrimStart(s) == s;
    assert TrimEnd(s) == s;
  }

  lemma TrimIdempotent(s: string)
    ensures Trim(Trim(s)) == Trim(s)
  {
    var t := Trim(s);
    assert TrimStart(t) == t;
    assert TrimEnd(t) == t;
  }

  /** `z.string().trim().min(minimum, message)`. */
  function TrimmedMin(b: Body, key: string, minimum: nat, message: string): FieldParse<string> {
    if key !in b then Bad(Issue(key, Required, RequiredMessage))
    else if !b[key].Str? then Bad(Issue(key, InvalidType, TypeMessage))
    else if |Trim(b[key].s)| < minimum then Bad(Issue(key, TooSmall(minimum), message))
    else Got(Trim(b[key].s))
  }

  /** `z.string().trim().email(message)`; the e-mail pattern itself is the parameter `isEmail`. */
  function TrimmedEmail(b: Body, key: string, isEmail: string -> bool, message: string)
    : FieldParse<string>
  {
    if key !in b then Bad(Issue(key, Required, RequiredMessage))
    else if !b[key].Str? then Bad(Issue(key, InvalidType, TypeMessage))
    else if !isEmail(Trim(b[key].s)) then Bad(Issue(key, InvalidEmail, message))
    else Got(Trim(b[key].s))
  }

  const NameMessage: string := "Nama wajib diisi (minimal 2 karakter)"
  const EmailMessage: string := "Format email tidak valid"
  const SubjectMessage: string := "Subjek wajib diisi (minimal 3 karakter)"
  const MessageMessage: string := "Pesan terlalu singkat (minimal 10 karakter)"

  const ContactKeys: set<string> := {"name", "email", "subject", "message"}

  /** A body key holding a string whose trimmed form has at least `minimum` characters. */
  predicate LongEnough(b: Body, key: string, minimum: nat) {
    key in b && b[key].Str? && |Trim(b[key].s)| >= minimum
  }

  function ParseContactForm(b: Body, isEmail: string -> bool): (r: Parse<InsertContactMessage>)
    ensures r.Parsed? <==> (LongEnough(b, "name", 2) && LongEnough(b, "subject", 3) &&
                            LongEnough(b, "message", 10) && "email" in b && b["email"].Str? &&
                            isEmail(Trim(b["email"].s)))
    ensures r.Parsed? ==> r.value == InsertContactMessage(
      Trim(b["name"].s), Trim(b["email"].s), Trim(b["subject"].s), Trim(b["message"].s))
    ensures r.Rejected? ==> 1 <= |r.issues| <= 4
  {
    var name := TrimmedMin(b, "name", 2, NameMessage);
    var email := TrimmedEmail(b, "email", isEmail, EmailMessage);
    var subject := TrimmedMin(b, "subject", 3, SubjectMessage);
    var message := TrimmedMin(b, "message", 10, MessageMessage);
    if name.Got? && email.Got? && subject.Got? && message.Got? then
      Parsed(InsertContactMessage(name.value, email.value, subject.value, message.value))
    else
      Rejected(Issues(name) + Issues(email) + Issues(subject) + Issues(message))
  }

  /** With every other field valid, a message is refused, with the "too short" issue alone,
      exactly when it has fewer than ten characters; so nine fail and ten pass. */
  lemma ContactMessageBoundary(b: Body, isEmail: string -> bool, m: string)
    requires LongEnough(b, "name", 2) && LongEnough(b, "subject", 3)
    requires "email" in b && b["email"].Str? && isEmail(Trim(b["email"].s))
    requires m != [] ==> !IsTrimmed(m[0]) && !IsTrimmed(m[|m| - 1])
    ensures ParseContactForm(b["message" := Str(m)], isEmail).Parsed? <==> |m| >= 10
    ensures |m| < 10 ==> ParseContactForm(b["message" := Str(m)], isEmail)
                         == Rejected([Issue("message", TooSmall(10), MessageMessage)])
  {
    var bm := b["message" := Str(m)];
    assert bm["name"] == b["name"] && bm["email"] == b["email"] && bm["subject"] == b["subject"];
    assert TrimmedMin(bm, "name", 2, NameMessage).Got?;
    assert TrimmedEmail(bm, "email", isEmail, EmailMessage).Got?;
    assert TrimmedMin(bm, "subject", 3, SubjectMessage).Got?;
    TrimKeepsTrimmed(m);
    if |m| < 10 {
      ContactRejectsOnlyMessage(bm, isEmail);
    }
  }

  /** When the message is the only field that fails, its issue is the only one reported. */
  lemma ContactRejectsOnlyMessage(b: Body, isEmail: string -> bool)
    requires TrimmedMin(b, "name", 2, NameMessage).Got?
    requires TrimmedEmail(b, "email", isEmail, EmailMessage).Got?
    requires TrimmedMin(b, "subject", 3, SubjectMessage).Got?
    requires TrimmedMin(b, "message", 10, MessageMessage).Bad?
    ensures ParseContactForm(b, isEmail) == Rejected([TrimmedMin(b, "message", 10, MessageMessage).issue])
  {
    var name := TrimmedMin(b, "name", 2, NameMessage);
    var email := TrimmedEmail(b, "email", isEmail, EmailMessage);
    var subject := TrimmedMin(b, "subject", 3, SubjectMessage);
    var message := TrimmedMin(b, "message", 10, MessageMessage);
    assert Issues(name) == [] && Issues(email) == [] && Issues(subject) == [];
    assert Issues(name) + Issues(email) + Issues(subject) + Issues(message) == [message.issue];
  }

  /** Validation reads only the picked keys: nothing else in a body can reach the payload. */
  lemma ContactReadsOnlyPickedKeys(b: Body, isEmail: string -> bool)
    ensures ParseContactForm(Pick(b, ContactKeys), isEmail) == ParseContactForm(b, isEmail)
  {
    var p := Pick(b, ContactKeys);
    assert TrimmedMin(p, "name", 2, NameMessage) == TrimmedMin(b, "name", 2, NameMessage) by {
      PickAgrees(b, ContactKeys, "name");
    }
    assert TrimmedEmail(p, "email", isEmail, EmailMessage) == TrimmedEmail(b, "email", isEmail, EmailMessage) by {
      PickAgrees(b, ContactKeys, "email");
    }
    assert TrimmedMin(p, "subject", 3, SubjectMessage) == TrimmedMin(b, "subject", 3, SubjectMessage) by {
      PickAgrees(b, ContactKeys, "subject");
    }
    assert TrimmedMin(p, "message", 10, MessageMessage) == TrimmedMin(b, "message", 10, MessageMessage) by {
      PickAgrees(b, ContactKeys, "message");
    }
  }

  lemma PickAgrees(b: Body, keys: set<string>, k: string)
    requires k in keys
    ensures k in Pick(b, keys) <==> k in b
    ensures k in b ==> Pick(b, keys)[k] == b[k]
  {
  }

  const NewsKeys: set<string> := {"title", "content", "excerpt", "author", "featured", "published"}

  function ParseNewsArticle(b: Body): (r: Parse<InsertNewsArticle>)
    ensures r.Parsed? <==>
              && HasString(b, "title") && HasString(b, "content") && HasString(b, "excerpt")
              && HasString(b, "author") && MayNullableBool(b, "featured")
              && MayNullableBool(b, "published")
    ensures r.Parsed? ==> r.value == InsertNewsArticle(
              b["title"].s, b["content"].s, b["excerpt"].s, b["author"].s,
              NullableBoolField(b, "featured"), NullableBoolField(b, "published"))
    ensures r.Rejected? ==> r.issues != []
  {
    var title := RequiredString(b, "title");
    var content := RequiredString(b, "content");
    var excerpt := RequiredString(b, "excerpt");
    var author := RequiredString(b, "author");
    var featured := NullableBool(b, "featured");
    var published := NullableBool(b, "published");
    if title.Got? && content.Got? && excerpt.Got? && author.Got? && featured.Got? && published.Got? then
      Parsed(InsertNewsArticle(title.value, content.value, excerpt.value, author.value,
                               featured.value, published.value))
    else
      Rejected(Issues(title) + Issues(content) + Issues(excerpt) + Issues(author) +
               Issues(featured) + Issues(published))
  }

  /** A body's extra keys, `publishedAt` and timestamps among them, are not read. */
  lemma NewsReadsOnlyPickedKeys(b: Body)
    ensures "publishedAt" !in NewsKeys
    ensures ParseNewsArticle(Pick(b, NewsKeys)) == ParseNewsArticle(b)
  {
    var p := Pick(b, NewsKeys);
    assert RequiredString(p, "title") == RequiredString(b, "title") by { PickAgrees(b, NewsKeys, "title"); }
    assert RequiredString(p, "content") == RequiredString(b, "content") by { PickAgrees(b, NewsKeys, "content"); }
    assert RequiredString(p, "excerpt") == RequiredString(b, "excerpt") by { PickAgrees(b, NewsKeys, "excerpt"); }
    assert RequiredString(p, "author") == RequiredString(b, "author") by { PickAgrees(b, NewsKeys, "author"); }
    assert NullableBool(p, "featured") == NullableBool(b, "featured") by { PickAgrees(b, NewsKeys, "featured"); }
    assert NullableBool(p, "published") == NullableBool(b, "published") by { PickAgrees(b, NewsKeys, "published"); }
  }

  /** `insertNewsArticleSchema.partial()`: every key may be left out, and an empty body is a
      valid patch. */
  function ParseNewsPatch(b: Body): (r: Parse<NewsPatch>)
    ensures r.Parsed? <==>
              && MayString(b, "title") && MayString(b, "content") && MayString(b, "excerpt")
              && MayString(b, "author") && MayNullableBool(b, "featured")
              && MayNullableBool(b, "published")
    ensures r.Parsed? ==> r.value == NewsPatch(
              StringField(b, "title"), StringField(b, "content"), StringField(b, "excerpt"),
              StringField(b, "author"), NullableBoolField(b, "featured"),
              NullableBoolField(b, "published"))
    ensures r.Rejected? ==> r.issues != []
  {
    var title := OptionalString(b, "title");
    var content := OptionalString(b, "content");
    var excerpt := OptionalString(b, "excerpt");
    var author := OptionalString(b, "author");
    var featured := NullableBool(b, "featured");
    var published := NullableBool(b, "published");
    if title.Got? && content.Got? && excerpt.Got? && author.Got? && featured.Got? && published.Got? then
      Parsed(NewsPatch(title.value, content.value, excerpt.value, author.value,
                       featured.value, published.value))
    else
      Rejected(Issues(title) + Issues(content) + Issues(excerpt) + Issues(author) +
               Issues(featured) + Issues(published))
  }

  const RegistrationKeys: set<string> :=
    {"fullName", "email", "phone", "dateOfBirth", "address", "parentName", "parentPhone",
     "previousSchool", "program", "documents"}

  function ParseStudentRegistration(b: Body): (r: Parse<InsertStudentRegistration>)
    ensures r.Parsed? <==>
              && HasString(b, "fullName") && HasString(b, "email") && HasString(b, "phone")
              && HasString(b, "dateOfBirth") && HasString(b, "address")
              && HasString(b, "parentName") && HasString(b, "parentPhone")
              && HasString(b, "previousSchool") && HasString(b, "program")
              && MayNullableString(b, "documents")
    ensures r.Parsed? ==> r.value == InsertStudentRegistration(
              b["fullName"].s, b["email"].s, b["phone"].s, b["dateOfBirth"].s, b["address"].s,
              b["parentName"].s, b["parentPhone"].s, b["previousSchool"].s, b["program"].s,
              NullableStringField(b, "documents"))
    ensures r.Rejected? ==> r.issues != []
  {
    var fullName := RequiredString(b, "fullName");
    var email := RequiredString(b, "email");
    var phone := RequiredString(b, "phone");
    var dateOfBirth := RequiredString(b, "dateOfBirth");
    var address := RequiredString(b, "address");
    var parentName := RequiredString(b, "parentName");
    var parentPhone := RequiredString(b, "parentPhone");
    var previousSchool := RequiredString(b, "previousSchool");
    var program := RequiredString(b, "program");
    var documents := NullableString(b, "documents");
    if && fullName.Got? && email.Got? && phone.Got? && dateOfBirth.Got? && address.Got?
       && parentName.Got? && parentPhone.Got? && previousSchool.Got? && program.Got?
       && documents.Got?
    then
      Parsed(InsertStudentRegistration(
        fullName.value, email.value, phone.value, dateOfBirth.value, address.value,
        parentName.value, parentPhone.value, previousSchool.value, program.value,
        documents.value))
    else
      Rejected(Issues(fullName) + Issues(email) + Issues(phone) + Issues(dateOfBirth) +
               Issues(address) + Issues(parentName) + Issues(parentPhone) +
               Issues(previousSchool) + Issues(program) + Issues(documents))
  }

  /** A registration cannot set its own `status` or `notes`: those keys are not read. */
  lemma RegistrationReadsOnlyPickedKeys(b: Body)
    ensures "status" !in RegistrationKeys && "notes" !in RegistrationKeys
    ensures ParseStudentRegistration(Pick(b, RegistrationKeys)) == ParseStudentRegistration(b)
  {
    var p := Pick(b, RegistrationKeys);
    assert RequiredString(p, "fullName") == RequiredString(b, "fullName") by { PickAgrees(b, RegistrationKeys, "fullName"); }
    assert RequiredString(p, "email") == RequiredString(b, "email") by { PickAgrees(b, RegistrationKeys, "email"); }
    assert RequiredString(p, "phone") == RequiredString(b, "phone") by { PickAgrees(b, RegistrationKeys, "phone"); }
    assert RequiredString(p, "dateOfBirth") == RequiredString(b, "dateOfBirth") by { PickAgrees(b, RegistrationKeys, "dateOfBirth"); }
    assert RequiredString(p, "address") == RequiredString(b, "address") by { PickAgrees(b, RegistrationKeys, "address"); }
    assert RequiredString(p, "parentName") == RequiredString(b, "parentName") by { PickAgrees(b, RegistrationKeys, "parentName"); }
    assert RequiredString(p, "parentPhone") == RequiredString(b, "parentPhone") by { PickAgrees(b, RegistrationKeys, "parentPhone"); }
    assert RequiredString(p, "previousSchool") == RequiredString(b, "previousSchool") by { PickAgrees(b, RegistrationKeys, "previousSchool"); }
    assert RequiredString(p, "program") == RequiredString(b, "program") by { PickAgrees(b, RegistrationKeys, "program"); }
    assert NullableString(p, "documents") == NullableString(b, "documents") by { PickAgrees(b, RegistrationKeys, "documents"); }
  }

  const AlumniKeys: set<string> :=
    {"fullName", "graduationYear", "program", "currentJob", "company", "achievement",
     "testimonial", "photo", "email", "linkedIn"}

  function ParseAlumni(b: Body): (r: Parse<InsertAlumni>)
    ensures r.Parsed? <==>
              && HasString(b, "fullName") && HasInt(b, "graduationYear") && HasString(b, "program")
              && MayNullableString(b, "currentJob") && MayNullableString(b, "company")
              && MayNullableString(b, "achievement") && MayNullableString(b, "testimonial")
              && MayNullableString(b, "photo") && MayNullableString(b, "email")
              && MayNullableString(b, "linkedIn")
    ensures r.Parsed? ==> r.value == InsertAlumni(
              b["fullName"].s, b["graduationYear"].n, b["program"].s,
              NullableStringField(b, "currentJob"), NullableStringField(b, "company"),
              NullableStringField(b, "achievement"), NullableStringField(b, "testimonial"),
              NullableStringField(b, "photo"), NullableStringField(b, "email"),
              NullableStringField(b, "linkedIn"))
    ensures r.Rejected? ==> r.issues != []
  {
    var fullName := RequiredString(b, "fullName");
    var graduationYear := RequiredInt(b, "graduationYear");
    var program := RequiredString(b, "program");
    var currentJob := NullableString(b, "currentJob");
    var company := NullableString(b, "company");
    var achievement := NullableString(b, "achievement");
    var testimonial := NullableString(b, "testimonial");
    var photo := NullableString(b, "photo");
    var email := NullableString(b, "email");
    var linkedIn := NullableString(b, "linkedIn");
    if && fullName.Got? && graduationYear.Got? && program.Got? && currentJob.Got?
       && company.Got? && achievement.Got? && testimonial.Got? && photo.Got? && email.Got?
       && linkedIn.Got?
    then
      Parsed(InsertAlumni(
        fullName.value, graduationYear.value, program.value, currentJob.value, company.value,
        achievement.value, testimonial.value, photo.value, email.value, linkedIn.value))
    else
      Rejected(Issues(fullName) + Issues(graduationYear) + Issues(program) +
               Issues(currentJob) + Issues(company) + Issues(achievement) +
               Issues(testimonial) + Issues(photo) + Issues(email) + Issues(linkedIn))
  }

  /** Alumni validation ignores every key outside the picked ten, `approved` and `featured` among them. */
  lemma AlumniReadsOnlyPickedKeys(b: Body)
    ensures "approved" !in AlumniKeys && "featured" !in AlumniKeys
    ensures ParseAlumni(Pick(b, AlumniKeys)) == ParseAlumni(b)
  {
    var p := Pick(b, AlumniKeys);
    assert RequiredString(p, "fullName") == RequiredString(b, "fullName") by { PickAgrees(b, AlumniKeys, "fullName"); }
    assert RequiredInt(p, "graduationYear") == RequiredInt(b, "graduationYear") by { PickAgrees(b, AlumniKeys, "graduationYear"); }
    assert RequiredString(p, "program") == RequiredString(b, "program") by { PickAgrees(b, AlumniKeys, "program"); }
    assert NullableString(p, "currentJob") == NullableString(b, "currentJob") by { PickAgrees(b, AlumniKeys, "currentJob"); }
    assert NullableString(p, "company") == NullableString(b, "company") by { PickAgrees(b, AlumniKeys, "company"); }
    assert NullableString(p, "achievement") == NullableString(b, "achievement") by { PickAgrees(b, AlumniKeys, "achievement"); }
    assert NullableString(p, "testimonial") == NullableString(b, "testimonial") by { PickAgrees(b, AlumniKeys, "testimonial"); }
    assert NullableString(p, "photo") == NullableString(b, "photo") by { PickAgrees(b, AlumniKeys, "photo"); }
    assert NullableString(p, "email") == NullableString(b, "email") by { PickAgrees(b, AlumniKeys, "email"); }
    assert NullableString(p, "linkedIn") == NullableString(b, "linkedIn") by { PickAgrees(b, AlumniKeys, "linkedIn"); }
  }

  function ParseAlumniPatch(b: Body): (r: Parse<AlumniPatch>)
    ensures r.Parsed? <==>
              && MayString(b, "fullName") && MayInt(b, "graduationYear") && MayString(b, "program")
              && MayNullableString(b, "currentJob") && MayNullableString(b, "company")
              && MayNullableString(b, "achievement") && MayNullableString(b, "testimonial")
              && MayNullableString(b, "photo") && MayNullableString(b, "email")
              && MayNullableString(b, "linkedIn")
    ensures r.Parsed? ==> r.value == AlumniPatch(
              StringField(b, "fullName"), IntField(b, "graduationYear"), StringField(b, "program"),
              NullableStringField(b, "currentJob"), NullableStringField(b, "company"),
              NullableStringField(b, "achievement"), NullableStringField(b, "testimonial"),
              NullableStringField(b, "photo"), NullableStringField(b, "email"),
              NullableStringField(b, "linkedIn"))
    ensures r.Rejected? ==> r.issues != []
  {
    var fullName := OptionalString(b, "fullName");
    var graduationYear := OptionalInt(b, "graduationYear");
    var program := OptionalString(b, "program");
    var currentJob := NullableString(b, "currentJob");
    var company := NullableString(b, "company");
    var achievement := NullableString(b, "achievement");
    var testimonial := NullableString(b, "testimonial");
    var photo := NullableString(b, "photo");
    var email := NullableString(b, "email");
    var linkedIn := NullableString(b, "linkedIn");
    if && fullName.Got? && graduationYear.Got? && program.Got? && currentJob.Got?
       && company.Got? && achievement.Got? && testimonial.Got? && photo.Got? && email.Got?
       && linkedIn.Got?
    then
      Parsed(AlumniPatch(
        fullName.value, graduationYear.value, program.value, currentJob.value, company.value,
        achievement.value, testimonial.value, photo.value, email.value, linkedIn.value))
    else
      Rejected(Issues(fullName) + Issues(graduationYear) + Issues(program) +
               Issues(currentJob) + Issues(company) + Issues(achievement) +
               Issues(testimonial) + Issues(photo) + Issues(email) + Issues(linkedIn))
  }

  /** A `graduationYear` outside PostgreSQL's `integer` range is refused by both alumni schemas,
      with the bound it breaks among the issues. */
  lemma OutOfRangeYearRejected(b: Body)
    requires "graduationYear" in b && b["graduationYear"].Num? && !IsInt32(b["graduationYear"].n)
    ensures ParseAlumni(b).Rejected? && ParseAlumniPatch(b).Rejected?
    ensures RangeIssue("graduationYear", b["graduationYear"].n).value in ParseAlumni(b).issues
    ensures RangeIssue("graduationYear", b["graduationYear"].n).value in ParseAlumniPatch(b).issues
  {
  }

  // The event schema. `eventDate` is a `timestamp` column, checked by zod's date rule, which
  // accepts only a JavaScript `Date` object. The rule is the parameter `asDate`, the instant it
  // reads from a value or None; on a body decoded from JSON it is `JsonDate`.

  /** zod's date rule on a value decoded from JSON: no JSON value is a `Date` object. */
  function JsonDate(v: Value): Option<Time> {
    None
  }

  /** The date column: the key holds a value the date rule accepts. */
  predicate HasDate(b: Body, key: string, asDate: Value -> Option<Time>) {
    key in b && asDate(b[key]).Some?
  }

  /** The date column under `.partial()`: absent, or a value the date rule accepts. */
  predicate MayDate(b: Body, key: string, asDate: Value -> Option<Time>) {
    key !in b || asDate(b[key]).Some?
  }

  function DateField(b: Body, key: string, asDate: Value -> Option<Time>): Field<Time>
    requires MayDate(b, key, asDate)
  {
    if key in b then Supplied(asDate(b[key]).value) else Omitted
  }

  function RequiredDate(b: Body, key: string, asDate: Value -> Option<Time>): (r: FieldParse<Time>)
    ensures r.Got? <==> HasDate(b, key, asDate)
    ensures r.Got? ==> r.value == asDate(b[key]).value
    ensures r.Bad? ==> r.issue.path == key
  {
    if key !in b then Bad(Issue(key, Required, RequiredMessage))
    else if asDate(b[key]).Some? then Got(asDate(b[key]).value)
    else Bad(Issue(key, InvalidType, TypeMessage))
  }

  function OptionalDate(b: Body, key: string, asDate: Value -> Option<Time>)
    : (r: FieldParse<Field<Time>>)
    ensures r.Got? <==> MayDate(b, key, asDate)
    ensures r.Got? ==> r.value == DateField(b, key, asDate)
    ensures r.Bad? ==> r.issue.path == key
  {
    if key !in b then Got(Omitted)
    else if asDate(b[key]).Some? then Got(Supplied(asDate(b[key]).value))
    else Bad(Issue(key, InvalidType, TypeMessage))
  }

  const EventKeys: set<string> :=
    {"title", "description", "eventDate", "eventTime", "location", "category", "isPublic"}

  function ParseEvent(b: Body, asDate: Value -> Option<Time>): (r: Parse<InsertAcademicEvent>)
    ensures r.Parsed? <==>
              && HasString(b, "title") && MayNullableString(b, "description")
              && HasDate(b, "eventDate", asDate) && MayNullableString(b, "eventTime")
              && MayNullableString(b, "location") && HasString(b, "category")
              && MayNullableBool(b, "isPublic")
    ensures r.Parsed? ==> r.value == InsertAcademicEvent(
              b["title"].s, NullableStringField(b, "description"), asDate(b["eventDate"]).value,
              NullableStringField(b, "eventTime"), NullableStringField(b, "location"),
              b["category"].s, NullableBoolField(b, "isPublic"))
    ensures r.Rejected? ==> r.issues != []
  {
    var title := RequiredString(b, "title");
    var description := NullableString(b, "description");
    var eventDate := RequiredDate(b, "eventDate", asDate);
    var eventTime := NullableString(b, "eventTime");
    var location := NullableString(b, "location");
    var category := RequiredString(b, "category");
    var isPublic := NullableBool(b, "isPublic");
    if && title.Got? && description.Got? && eventDate.Got? && eventTime.Got? && location.Got?
       && category.Got? && isPublic.Got?
    then
      Parsed(InsertAcademicEvent(title.value, description.value, eventDate.value,
                                 eventTime.value, location.value, category.value, isPublic.value))
    else
      Rejected(Issues(title) + Issues(description) + Issues(eventDate) + Issues(eventTime) +
               Issues(location) + Issues(category) + Issues(isPublic))
  }

  function ParseEventPatch(b: Body, asDate: Value -> Option<Time>): (r: Parse<EventPatch>)
    ensures r.Parsed? <==>
              && MayString(b, "title") && MayNullableString(b, "description")
              && MayDate(b, "eventDate", asDate) && MayNullableString(b, "eventTime")
              && MayNullableString(b, "location") && MayString(b, "category")
              && MayNullableBool(b, "isPublic")
    ensures r.Parsed? ==> r.value == EventPatch(
              StringField(b, "title"), NullableStringField(b, "description"),
              DateField(b, "eventDate", asDate), NullableStringField(b, "eventTime"),
              NullableStringField(b, "location"), StringField(b, "category"),
              NullableBoolField(b, "isPublic"))
    ensures r.Rejected? ==> r.issues != []
  {
    var title := OptionalString(b, "title");
    var description := NullableString(b, "description");
    var eventDate := OptionalDate(b, "eventDate", asDate);
    var eventTime := NullableString(b, "eventTime");
    var location := NullableString(b, "location");
    var category := OptionalString(b, "category");
    var isPublic := NullableBool(b, "isPublic");
    if && title.Got? && description.Got? && eventDate.Got? && eventTime.Got? && location.Got?
       && category.Got? && isPublic.Got?
    then
      Parsed(EventPatch(title.value, description.value, eventDate.value, eventTime.value,
                        location.value, category.value, isPublic.value))
    else
      Rejected(Issues(title) + Issues(description) + Issues(eventDate) + Issues(eventTime) +
               Issues(location) + Issues(category) + Issues(isPublic))
  }

  /** On a JSON body the event schema never accepts: creating needs `eventDate`, and an update
      that carries it is refused as well. */
  lemma JsonEventDateRejected(b: Body)
    ensures ParseEvent(b, JsonDate).Rejected?
    ensures "eventDate" in b ==> ParseEventPatch(b, JsonDate).Rejected?
  {
  }

  /** An event body's extra keys are not read. */
  lemma EventReadsOnlyPickedKeys(b: Body, asDate: Value -> Option<Time>)
    ensures ParseEvent(Pick(b, EventKeys), asDate) == ParseEvent(b, asDate)
  {
    var p := Pick(b, EventKeys);
    assert RequiredString(p, "title") == RequiredString(b, "title") by { PickAgrees(b, EventKeys, "title"); }
    assert NullableString(p, "description") == NullableString(b, "description") by { PickAgrees(b, EventKeys, "description"); }
    assert RequiredDate(p, "eventDate", asDate) == RequiredDate(b, "eventDate", asDate) by { PickAgrees(b, EventKeys, "eventDate"); }
    assert NullableString(p, "eventTime") == NullableString(b, "eventTime") by { PickAgrees(b, EventKeys, "eventTime"); }
    assert NullableString(p, "location") == NullableString(b, "location") by { PickAgrees(b, EventKeys, "location"); }
    assert RequiredString(p, "category") == RequiredString(b, "category") by { PickAgrees(b, EventKeys, "category"); }
    assert NullableBool(p, "isPublic") == NullableBool(b, "isPublic") by { PickAgrees(b, EventKeys, "isPublic"); }
  }
}
