/**
 * The user account handlers: `register`, `login`, `logout` and `updateProfile`.
 *
 * The user collection is an in-memory table, a sequence of documents in insertion
 * order. bcrypt's `hash` and `compare` and the JWT `sign` are passed in as functions
 * the model knows nothing about; an uploaded file is the outcome of the upload.
 */
module UserController {
  import opened Wrappers
  import opened Collections
  import opened Text
  import opened Http

  datatype Profile = Profile(
    bio: Option<string>,
    skills: seq<string>,
    resume: Option<string>,
    resumeOriginalName: Option<string>,
    profilePhoto: string)

  /** A stored user document; `password` holds the bcrypt hash. */
  datatype User = User(
    id: nat,
    fullname: string,
    email: string,
    phoneNumber: string,
    password: string,
    role: string,
    profile: Profile)

  /** The `userData` object the handlers send back: a user without the password. */
  datatype UserView = UserView(
    id: nat,
    fullname: string,
    email: string,
    phoneNumber: string,
    role: string,
    profile: Profile)

  /** What became of the request's file: none sent, uploaded (with its hosted URL), or the upload threw. */
  datatype Upload = NoFile | Uploaded(secureUrl: string, originalName: string) | UploadFailed(reason: string)

  datatype RegisterRequest = RegisterRequest(
    fullname: Option<string>,
    email: Option<string>,
    phoneNumber: Option<string>,
    password: Option<string>,
    role: Option<string>)

  datatype LoginRequest = LoginRequest(email: Option<string>, password: Option<string>, role: Option<string>)

  /** The body of an `updateProfile` request; `skills` is one comma-separated string. */
  datatype ProfileUpdate = ProfileUpdate(
    fullname: Option<string>,
    email: Option<string>,
    phoneNumber: Option<string>,
    bio: Option<string>,
    skills: Option<string>)

  const MsgRegisterFields := "All fields are required: fullname, email, phoneNumber, password, role"
  const MsgPhotoFailed := "Failed to process profile photo"
  const MsgUserExists := "User already exists with this email"
  const MsgAccountCreated := "Account created successfully"
  const MsgLoginFields := "All fields are required: email, password, role"
  const MsgBadCredentials := "Incorrect email or password"
  const MsgWrongRole := "Account doesn't exist with this role"
  const MsgLoggedOut := "Logged out successfully"
  const MsgUserNotFound := "User not found"
  const MsgResumeFailed := "Failed to process resume"
  const MsgInvalidEmail := "Invalid email format"
  const MsgProfileUpdated := "Profile updated successfully"

  /** The session cookie's name and lifetime: one day, in milliseconds. */
  const TOKEN_COOKIE := "token"
  const TOKEN_MAX_AGE := 24 * 60 * 60 * 1000

  predicate AllGiven(req: RegisterRequest)
  {
    Given(req.fullname) && Given(req.email) && Given(req.phoneNumber) && Given(req.password) && Given(req.role)
  }

  /** The filter `{ email }`. */
  function HasEmail(email: string): User -> bool
  {
    (u: User) => u.email == email
  }

  /** The lookup `findById(id)`. */
  function HasId(id: nat): User -> bool
  {
    (u: User) => u.id == id
  }

  /** Every email occurs at most once in the table. */
  ghost predicate UniqueEmails(users: seq<User>)
  {
    forall i, j :: 0 <= i < j < |users| ==> users[i].email != users[j].email
  }

  /** The reply to a file whose upload threw. */
  function UploadError<T>(message: string, reason: string): (r: Reply<T>)
    ensures r.status == BAD_REQUEST && !r.success && r.message == message && r.error == Some(reason)
    ensures r.payload.None? && r.cookie.None?
  {
    Reply(BAD_REQUEST, false, message, Some(reason), None, None)
  }

  /** The user data sent to the client: every field of the user but the password hash. */
  function View(u: User): (v: UserView)
    ensures v.id == u.id && v.fullname == u.fullname && v.email == u.email
    ensures v.phoneNumber == u.phoneNumber && v.role == u.role && v.profile == u.profile
  {
    UserView(u.id, u.fullname, u.email, u.phoneNumber, u.role, u.profile)
  }

  /** The view reveals nothing of the password: two users that differ only in it look the same. */
  lemma ViewHidesPassword(u: User, w: User)
    requires u.(password := w.password) == w
    ensures View(u) == View(w)
  {
  }

  // ---------------------------------------------------------------- register

  /** The document `register` creates. */
  function NewUser(req: RegisterRequest, profilePhoto: string, hash: string -> string, id: nat): User
    requires AllGiven(req)
  {
    User(id, req.fullname.value, req.email.value, req.phoneNumber.value, hash(req.password.value),
         req.role.value, Profile(None, [], None, None, profilePhoto))
  }

  /**
   * The reply to `register` and the table after it, given the table before it, the outcome of
   * the photo upload, the password hash and the id the database gives a new document.
   */
  function RegisterOutcome(users: seq<User>, req: RegisterRequest, file: Upload, hash: string -> string, id: nat)
    : (o: (Reply<()>, seq<User>))
    ensures o.0.status == CREATED || o.0.status == BAD_REQUEST
    ensures o.0.status == CREATED <==>
      AllGiven(req) && !file.UploadFailed? && forall u :: u in users ==> u.email != req.email.value
    ensures o.0.status == BAD_REQUEST ==> o.1 == users && !o.0.success
    ensures !AllGiven(req) ==> o.0.message == MsgRegisterFields
    ensures AllGiven(req) && file.UploadFailed? ==> o.0.message == MsgPhotoFailed && o.0.error == Some(file.reason)
    ensures AllGiven(req) && !file.UploadFailed? && (exists u :: u in users && u.email == req.email.value) ==>
      o.0.message == MsgUserExists
    ensures o.0.status == CREATED ==>
      o.0.success && o.0.message == MsgAccountCreated &&
      |o.1| == |users| + 1 && o.1[..|users|] == users &&
      var u := o.1[|users|];
      u.id == id && u.email == req.email.value && u.fullname == req.fullname.value &&
      u.phoneNumber == req.phoneNumber.value && u.role == req.role.value &&
      u.password == hash(req.password.value) &&
      u.profile.profilePhoto == (if file.Uploaded? then file.secureUrl else "") &&
      u.profile.bio.None? && u.profile.skills == [] && u.profile.resume.None? &&
      u.profile.resumeOriginalName.None?
    ensures o.0.status == CREATED ==>
      forall i :: 0 <= i < |o.1| ==> (o.1[i].email == req.email.value <==> i == |users|)
  {
    if !AllGiven(req) then
      (Failure(BAD_REQUEST, MsgRegisterFields), users)
    else if file.UploadFailed? then
      (UploadError(MsgPhotoFailed, file.reason), users)
    else if FindFirst(users, HasEmail(req.email.value)).Some? then
      (Failure(BAD_REQUEST, MsgUserExists), users)
    else
      var photo := if file.Uploaded? then file.secureUrl else "";
      var u := NewUser(req, photo, hash, id);
      assert forall i :: 0 <= i < |users| ==> users[i] in users;
      (Reply(CREATED, true, MsgAccountCreated, None, None, None), users + [u])
  }

  /** `register` keeps every email unique in the table. */
  lemma RegisterKeepsEmailsUnique(users: seq<User>, req: RegisterRequest, file: Upload, hash: string -> string, id: nat)
    requires UniqueEmails(users)
    ensures UniqueEmails(RegisterOutcome(users, req, file, hash, id).1)
  {
    var o := RegisterOutcome(users, req, file, hash, id);
    if o.0.status == CREATED {
      forall i, j | 0 <= i < j < |o.1| ensures o.1[i].email != o.1[j].email {
        if j < |users| {
          assert o.1[i] == users[i] && o.1[j] == users[j];
        }
      }
    }
  }

  /** Registering the same email twice is refused the second time, and the table stays as the first call left it. */
  lemma RegisterTwice(users: seq<User>, req: RegisterRequest, file: Upload, hash: string -> string, id: nat, id': nat)
    requires RegisterOutcome(users, req, file, hash, id).0.status == CREATED
    ensures var t := RegisterOutcome(users, req, file, hash, id).1;
      var o := RegisterOutcome(t, req, file, hash, id');
      o.0.status == BAD_REQUEST && o.0.message == MsgUserExists && o.1 == t
  {
    var t := RegisterOutcome(users, req, file, hash, id).1;
    assert t[|users|] in t;
  }

  // ---------------------------------------------------------------- login

  /** The account `login` looks at: the first user with the request's email. */
  function Account(users: seq<User>, email: string): (a: Option<User>)
    ensures a.Some? <==> exists u :: u in users && u.email == email
    ensures a.Some? ==> a.value in users && a.value.email == email
    ensures a.Some? ==> forall j :: 0 <= j < |users| && users[j].email == email ==>
      exists k :: 0 <= k <= j && users[k] == a.value
  {
    FindFirst(users, HasEmail(email))
  }

  /** The three fields `login` requires. */
  predicate LoginFieldsGiven(req: LoginRequest)
  {
    Given(req.email) && Given(req.password) && Given(req.role)
  }

  /** The account exists and bcrypt's compare accepts the password against its stored hash. */
  predicate PasswordMatches(users: seq<User>, req: LoginRequest, compare: (string, string) -> bool)
    requires LoginFieldsGiven(req)
  {
    var a := Account(users, req.email.value);
    a.Some? && compare(req.password.value, a.value.password)
  }

  /** When `login` lets a request in: all fields given, the account exists, the password matches and so does the role. */
  predicate LoginAccepted(users: seq<User>, req: LoginRequest, compare: (string, string) -> bool)
  {
    LoginFieldsGiven(req) && PasswordMatches(users, req, compare) &&
    req.role.value == Account(users, req.email.value).value.role
  }

  /**
   * `login`: checks the fields, the account, the password and the role, in that order; on success
   * it sends the user's view and sets the `token` cookie to the signed user id for one day.
   */
  function Login(users: seq<User>, req: LoginRequest, compare: (string, string) -> bool, sign: nat -> string)
    : (r: Reply<UserView>)
    ensures r.status == OK || r.status == BAD_REQUEST
    ensures r.status == OK <==> LoginAccepted(users, req, compare)
    ensures r.status == OK ==>
      var u := Account(users, req.email.value).value;
      r.success && r.payload == Some(View(u)) &&
      r.cookie == Some(Cookie(TOKEN_COOKIE, sign(u.id), TOKEN_MAX_AGE)) &&
      r.message == "Welcome back " + u.fullname
    ensures r.status == BAD_REQUEST ==> !r.success && r.payload.None? && r.cookie.None?
    ensures !LoginFieldsGiven(req) ==> r == Failure(BAD_REQUEST, MsgLoginFields)
    // An unknown email and a wrong password get the very same reply.
    ensures LoginFieldsGiven(req) && !PasswordMatches(users, req, compare) ==>
      r == Failure(BAD_REQUEST, MsgBadCredentials)
    // A correct password does not let a request in under another role.
    ensures LoginFieldsGiven(req) && PasswordMatches(users, req, compare) ==>
      (req.role.value != Account(users, req.email.value).value.role <==> r == Failure(BAD_REQUEST, MsgWrongRole))
  {
    if !LoginFieldsGiven(req) then
      Failure(BAD_REQUEST, MsgLoginFields)
    else
      match Account(users, req.email.value)
      case None => Failure(BAD_REQUEST, MsgBadCredentials)
      case Some(u) =>
        if !compare(req.password.value, u.password) then Failure(BAD_REQUEST, MsgBadCredentials)
        else if req.role.value != u.role then Failure(BAD_REQUEST, MsgWrongRole)
        else
          Reply(OK, true, "Welcome back " + u.fullname, None, Some(View(u)),
                Some(Cookie(TOKEN_COOKIE, sign(u.id), TOKEN_MAX_AGE)))
  }

  /**
   * A freshly registered account can log in with the credentials it registered with, provided
   * bcrypt's compare accepts a password against its own hash; asking for another role is refused.
   */
  lemma RegisterThenLogin(users: seq<User>, req: RegisterRequest, file: Upload, hash: string -> string, id: nat,
                          compare: (string, string) -> bool, sign: nat -> string, role: Option<string>)
    requires RegisterOutcome(users, req, file, hash, id).0.status == CREATED
    requires compare(req.password.value, hash(req.password.value))
    ensures var t := RegisterOutcome(users, req, file, hash, id).1;
      var r := Login(t, LoginRequest(req.email, req.password, req.role), compare, sign);
      r.status == OK && r.payload == Some(View(t[|users|])) &&
      r.cookie == Some(Cookie(TOKEN_COOKIE, sign(id), TOKEN_MAX_AGE))
    ensures Given(role) && role != req.role ==>
      var t := RegisterOutcome(users, req, file, hash, id).1;
      Login(t, LoginRequest(req.email, req.password, role), compare, sign) == Failure(BAD_REQUEST, MsgWrongRole)
  {
    var t := RegisterOutcome(users, req, file, hash, id).1;
    var p := HasEmail(req.email.value);
    assert t == users + [t[|users|]];
    FirstIndexAppend(users, t[|users|], p);
  }

  /** `logout`: replies 200 and sets the `token` cookie to "" with a zero lifetime. */
  function Logout(): (r: Reply<()>)
    ensures r.status == OK && r.success && r.message == MsgLoggedOut
    ensures forall jar :: TOKEN_COOKIE !in Receive(jar, r)
    ensures forall jar, n :: n != TOKEN_COOKIE ==> (n in Receive(jar, r) <==> n in jar)
    ensures forall jar, n :: n != TOKEN_COOKIE && n in jar ==> Receive(jar, r)[n] == jar[n]
  {
    Reply(OK, true, MsgLoggedOut, None, None, Some(Cookie(TOKEN_COOKIE, "", 0)))
  }

  /** A browser that logs in holds the signed token; after logging out it holds no token, whatever it held before. */
  lemma LoginThenLogout(jar: CookieJar, users: seq<User>, req: LoginRequest,
                        compare: (string, string) -> bool, sign: nat -> string)
    requires LoginAccepted(users, req, compare)
    ensures var r := Login(users, req, compare, sign);
      TOKEN_COOKIE in Receive(jar, r) &&
      Receive(jar, r)[TOKEN_COOKIE] == sign(Account(users, req.email.value).value.id) &&
      TOKEN_COOKIE !in Receive(Receive(jar, r), Logout())
  {
  }

  // ---------------------------------------------------------------- updateProfile

  /** The email check of `updateProfile`: `email.includes("@") && email.includes(".")`. */
  function ValidEmail(email: string): (b: bool)
    ensures b <==> '@' in email && '.' in email
  {
    IncludesChar(email, '@');
    IncludesChar(email, '.');
    Includes(email, "@") && Includes(email, ".")
  }

  /** `skills.split(",").map(skill => skill.trim())`. */
  function ParseSkills(skills: string): (r: seq<string>)
    ensures |r| == Count(skills, ',') + 1
    ensures forall i :: 0 <= i < |r| ==> r[i] == Trim(Split(skills, ',')[i])
  {
    var parts := Split(skills, ',');
    seq(|parts|, i requires 0 <= i < |parts| => Trim(parts[i]))
  }

  /** Each parsed skill is one comma-free piece of the input, without white space at either end. */
  lemma ParsedSkillsAreTrimmedPieces(skills: string, i: nat)
    requires i < |ParseSkills(skills)|
    ensures var s := ParseSkills(skills)[i];
      ',' !in s && (s == [] || (!IsSpace(s[0]) && !IsSpace(s[|s| - 1])))
  {
    TrimIsInfix(Split(skills, ',')[i]);
  }

  /** `x || ''` on a stored string that may be absent. */
  function OrEmpty(x: Option<string>): string
  {
    x.GetOr("")
  }

  /**
   * The user as `updateProfile` saves it: each given field replaces the stored one, the skills
   * string is parsed into a list, and the resume and its file name are set.
   */
  function Merge(u: User, req: ProfileUpdate, resume: string, resumeOriginalName: string): (w: User)
    ensures w.id == u.id && w.password == u.password && w.role == u.role
    ensures w.profile.profilePhoto == u.profile.profilePhoto
    ensures w.fullname == if Given(req.fullname) then req.fullname.value else u.fullname
    ensures w.email == if Given(req.email) then req.email.value else u.email
    ensures w.phoneNumber == if Given(req.phoneNumber) then req.phoneNumber.value else u.phoneNumber
    ensures w.profile.bio == if Given(req.bio) then req.bio else u.profile.bio
    ensures w.profile.skills == if Given(req.skills) then ParseSkills(req.skills.value) else u.profile.skills
    ensures w.profile.resume == Some(resume) && w.profile.resumeOriginalName == Some(resumeOriginalName)
  {
    var w := u.(
      fullname := if Given(req.fullname) then req.fullname.value else u.fullname,
      email := if Given(req.email) then req.email.value else u.email,
      phoneNumber := if Given(req.phoneNumber) then req.phoneNumber.value else u.phoneNumber);
    w.(profile := w.profile.(
      bio := if Given(req.bio) then req.bio else u.profile.bio,
      skills := if Given(req.skills) then ParseSkills(req.skills.value) else u.profile.skills,
      resume := Some(resume),
      resumeOriginalName := Some(resumeOriginalName)))
  }

  /** The resume `updateProfile` stores: the new upload's URL and file name, or what was stored before. */
  function ResumeAfter(u: User, file: Upload): (r: (string, string))
    ensures file.Uploaded? ==> r.0 == file.secureUrl && r.1 == file.originalName
    ensures !file.Uploaded? ==> Some(r.0) == u.profile.resume || (u.profile.resume.None? && r.0 == "")
    ensures !file.Uploaded? ==>
      Some(r.1) == u.profile.resumeOriginalName || (u.profile.resumeOriginalName.None? && r.1 == "")
  {
    if file.Uploaded? then (file.secureUrl, file.originalName)
    else (OrEmpty(u.profile.resume), OrEmpty(u.profile.resumeOriginalName))
  }

  /**
   * The reply to `updateProfile` for the user `userId` and the table after it: the user is looked up,
   * the resume uploaded, the email checked, and only then is the merged user saved.
   */
  function UpdateOutcome(users: seq<User>, userId: nat, req: ProfileUpdate, file: Upload)
    : (o: (Reply<UserView>, seq<User>))
    ensures o.0.status == OK || o.0.status == BAD_REQUEST || o.0.status == NOT_FOUND
    ensures o.0.status == NOT_FOUND <==> forall u :: u in users ==> u.id != userId
    ensures o.0.status == NOT_FOUND ==> o.0.message == MsgUserNotFound
    ensures o.0.status != OK ==> o.1 == users && !o.0.success && o.0.payload.None?
    // A failed upload is reported before the email is looked at.
    ensures (exists u :: u in users && u.id == userId) && file.UploadFailed? ==>
      o.0.status == BAD_REQUEST && o.0.message == MsgResumeFailed && o.0.error == Some(file.reason)
    ensures ((exists u :: u in users && u.id == userId) && !file.UploadFailed? &&
             Given(req.email) && !ValidEmail(req.email.value)) ==>
      o.0.status == BAD_REQUEST && o.0.message == MsgInvalidEmail
    ensures Given(req.email) && !ValidEmail(req.email.value) ==> o.0.status != OK
    ensures o.0.status == OK <==>
      (exists u :: u in users && u.id == userId) && !file.UploadFailed? &&
      (Given(req.email) ==> ValidEmail(req.email.value))
    ensures o.0.status == OK ==>
      var i := FirstIndex(users, HasId(userId)).value;
      var (resume, name) := ResumeAfter(users[i], file);
      o.1 == users[i := Merge(users[i], req, resume, name)] &&
      o.0.success && o.0.message == MsgProfileUpdated && o.0.payload == Some(View(o.1[i]))
  {
    match FirstIndex(users, HasId(userId))
    case None => (Failure(NOT_FOUND, MsgUserNotFound), users)
    case Some(i) =>
      assert users[i] in users;
      var u := users[i];
      if file.UploadFailed? then
        (UploadError(MsgResumeFailed, file.reason), users)
      else if Given(req.email) && !ValidEmail(req.email.value) then
        (Failure(BAD_REQUEST, MsgInvalidEmail), users)
      else
        var (resume, name) := ResumeAfter(u, file);
        var w := Merge(u, req, resume, name);
        (Reply(OK, true, MsgProfileUpdated, None, Some(View(w)), None), users[i := w])
  }

  /** Without a new upload the stored resume and its file name are kept (an absent one is stored as ''). */
  lemma UpdateKeepsResume(users: seq<User>, userId: nat, req: ProfileUpdate)
    requires UpdateOutcome(users, userId, req, NoFile).0.status == OK
    ensures var i := FirstIndex(users, HasId(userId)).value;
      var w := UpdateOutcome(users, userId, req, NoFile).1[i];
      OrEmpty(w.profile.resume) == OrEmpty(users[i].profile.resume) &&
      OrEmpty(w.profile.resumeOriginalName) == OrEmpty(users[i].profile.resumeOriginalName)
  {
  }

  /** `updateProfile` touches one user: every other document and the table's length stay as they were. */
  lemma UpdateTouchesOneUser(users: seq<User>, userId: nat, req: ProfileUpdate, file: Upload, j: nat)
    requires j < |users| && users[j].id != userId
    ensures var t := UpdateOutcome(users, userId, req, file).1;
      |t| == |users| && t[j] == users[j]
  {
  }

  /** Sending the same update twice leaves the table as sending it once. */
  lemma {:induction false} UpdateIdempotent(users: seq<User>, userId: nat, req: ProfileUpdate, file: Upload)
    requires UpdateOutcome(users, userId, req, file).0.status == OK
    ensures var t := UpdateOutcome(users, userId, req, file).1;
      UpdateOutcome(t, userId, req, file).1 == t
  {
    var i := FirstIndex(users, HasId(userId)).value;
    var (resume, name) := ResumeAfter(users[i], file);
    var w := Merge(users[i], req, resume, name);
    var t := users[i := w];
    FirstIndexReplace(users, i, w, HasId(userId));
    assert t[i] in t;
    var (resume', name') := ResumeAfter(w, file);
    assert resume' == resume && name' == name;
    assert Merge(w, req, resume', name') == w;
  }

  // ---------------------------------------------------------------- the user collection

  /** Ids increase along the table and stay below the next one to hand out. */
  ghost predicate IdsBelow(users: seq<User>, nextId: nat)
  {
    (forall i, j :: 0 <= i < j < |users| ==> users[i].id < users[j].id) &&
    (forall i :: 0 <= i < |users| ==> users[i].id < nextId)
  }

  /** No user in the table has the next id yet. */
  lemma IdsBelowFresh(users: seq<User>, nextId: nat)
    requires IdsBelow(users, nextId)
    ensures forall u :: u in users ==> u.id != nextId
  {
  }

  /** Appending a user with the next id, and advancing it, keeps the ids in order. */
  lemma AppendKeepsIds(users: seq<User>, nextId: nat, u: User)
    requires IdsBelow(users, nextId) && u.id == nextId
    ensures IdsBelow(users + [u], nextId + 1)
  {
  }

  /** Saving a user over itself with its id unchanged keeps the ids in order. */
  lemma ReplaceKeepsIds(users: seq<User>, nextId: nat, i: nat, u: User)
    requires IdsBelow(users, nextId) && i < |users| && u.id == users[i].id
    ensures IdsBelow(users[i := u], nextId)
  {
  }

  /**
   * In a table whose ids stay below the next one, the account `register` creates under that id
   * is the one a lookup by the id finds: `updateProfile` for it changes that account.
   */
  lemma RegisterThenFindById(users: seq<User>, req: RegisterRequest, file: Upload, hash: string -> string, id: nat)
    requires IdsBelow(users, id)
    requires RegisterOutcome(users, req, file, hash, id).0.status == CREATED
    ensures var t := RegisterOutcome(users, req, file, hash, id).1;
      FirstIndex(t, HasId(id)) == Some(|users|)
  {
    var t := RegisterOutcome(users, req, file, hash, id).1;
    IdsBelowFresh(users, id);
    assert t == users + [t[|users|]];
    FirstIndexAppend(users, t[|users|], HasId(id));
  }

  /** The user collection: its documents in insertion order, and the next id to hand out. */
  class UserStore {
    var users: seq<User>
    var nextId: nat

    /** Ids increase along the table and stay below the next one handed out. */
    ghost predicate Valid()
      reads this
    {
      IdsBelow(users, nextId)
    }

    constructor ()
      ensures Valid() && users == [] && nextId == 0
    {
      users := [];
      nextId := 0;
    }

    /** `register`: inserts the new user (`User.create`) when every check passes. */
    method Register(req: RegisterRequest, file: Upload, hash: string -> string) returns (reply: Reply<()>)
      requires Valid()
      modifies this
      ensures Valid()
      ensures (reply, users) == RegisterOutcome(old(users), req, file, hash, old(nextId))
      ensures nextId == if reply.status == CREATED then old(nextId) + 1 else old(nextId)
      // The new account is the one a lookup by its id finds.
      ensures reply.status == CREATED ==> FirstIndex(users, HasId(old(nextId))) == Some(|old(users)|)
    {
      if !AllGiven(req) {
        return Failure(BAD_REQUEST, MsgRegisterFields);
      }
      var profilePhoto := "";
      match file {
        case NoFile =>
        case Uploaded(url, _) => profilePhoto := url;
        case UploadFailed(reason) => return UploadError(MsgPhotoFailed, reason);
      }
      var existing := FindFirst(users, HasEmail(req.email.value));
      if existing.Some? {
        return Failure(BAD_REQUEST, MsgUserExists);
      }
      var hashedPassword := hash(req.password.value);
      var user := User(nextId, req.fullname.value, req.email.value, req.phoneNumber.value, hashedPassword,
                       req.role.value, Profile(None, [], None, None, profilePhoto));
      AppendKeepsIds(users, nextId, user);
      IdsBelowFresh(users, nextId);
      FirstIndexAppend(users, user, HasId(nextId));
      users := users + [user];
      nextId := nextId + 1;
      reply := Reply(CREATED, true, MsgAccountCreated, None, None, None);
    }

    /** `updateProfile`: merges the given fields into the user `userId` and saves it (`user.save()`). */
    method UpdateProfile(userId: nat, req: ProfileUpdate, file: Upload) returns (reply: Reply<UserView>)
      requires Valid()
      modifies this
      ensures Valid() && nextId == old(nextId)
      ensures (reply, users) == UpdateOutcome(old(users), userId, req, file)
    {
      var found := FirstIndex(users, HasId(userId));
      if found.None? {
        reply := Failure(NOT_FOUND, MsgUserNotFound);
        assert (reply, users) == UpdateOutcome(users, userId, req, file);
        return;
      }
      var i := found.value;
      var resume := OrEmpty(users[i].profile.resume);
      var resumeOriginalName := OrEmpty(users[i].profile.resumeOriginalName);
      match file {
        case NoFile =>
        case Uploaded(url, name) =>
          resume := url;
          resumeOriginalName := name;
        case UploadFailed(reason) =>
          reply := UploadError(MsgResumeFailed, reason);
          assert (reply, users) == UpdateOutcome(users, userId, req, file);
          return;
      }
      if Given(req.email) && !ValidEmail(req.email.value) {
        reply := Failure(BAD_REQUEST, MsgInvalidEmail);
        assert (reply, users) == UpdateOutcome(users, userId, req, file);
        return;
      }
      assert (resume, resumeOriginalName) == ResumeAfter(users[i], file);
      var user := Merge(users[i], req, resume, resumeOriginalName);
      ReplaceKeepsIds(users, nextId, i, user);
      users := users[i := user];
      reply := Reply(OK, true, MsgProfileUpdated, None, Some(View(user)), None);
    }
  }
}
