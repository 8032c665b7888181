/** Registration, login and token verification. Password hashing, the hash comparison,
    token signing and token verification are library calls, so each is a function
    parameter: `hash` for `bcrypt.hash(_, 12)`, `matches` for `bcrypt.compare`, `sign`
    for `jwt.sign` of `{ userId }`, and `decode` for `jwt.verify` (None when it throws). */
module Auth {
  import opened Common
  import opened Store
  import opened Upload

  /** A user as every response shows it: all the columns except the password. */
  datatype PublicUser = PublicUser(
    id: UserId, name: string, email: string, phone: string, age: Option<int>, gender: string,
    photo: Option<string>, role: Role, isVerified: bool, address: Option<Address>)

  /** `const { password: _, ...userWithoutPassword } = user` */
  function WithoutPassword(id: UserId, u: User): PublicUser {
    PublicUser(id, u.name, u.email, u.phone, u.age, u.gender, u.photo, u.role, u.isVerified, u.address)
  }

  /** The stored row is the public view plus the password. */
  function WithPassword(p: PublicUser, password: string): User {
    User(p.name, p.email, p.phone, password, p.age, p.gender, p.photo, p.role, p.isVerified, p.address)
  }

  /** Stripping the password loses nothing else: the row comes back from the view and
      its password, and two rows with the same view differ at most in the password. */
  lemma StripLosesOnlyPassword(id: UserId, u: User, v: User)
    ensures WithPassword(WithoutPassword(id, u), u.password) == u
    ensures WithoutPassword(id, u) == WithoutPassword(id, v) <==> u == v.(password := u.password)
  {
  }

  datatype AuthResponse = AuthResponse(message: string, user: PublicUser, token: string)

  // ----- register -----

  datatype RegisterForm = RegisterForm(
    name: string, email: string, phone: string, password: string, age: int, gender: string, address: Address)

  /** `findFirst({ where: { OR: [{ email }, { phone }] } })` finds someone. */
  predicate Taken(users: map<UserId, User>, email: string, phone: string) {
    exists id :: id in users && (users[id].email == email || users[id].phone == phone)
  }

  /** No two users share an email or a phone number. */
  predicate CredentialsUnique(users: map<UserId, User>) {
    forall a, b :: a in users && b in users && a != b ==>
      users[a].email != users[b].email && users[a].phone != users[b].phone
  }

  /** The row `create` writes: the hash of the password, the uploaded file's name or
      null, an ordinary unverified user (the schema's defaults), with the address. */
  function NewUser(f: RegisterForm, hash: string -> string, filename: Option<string>): User {
    User(f.name, f.email, f.phone, hash(f.password), Some(f.age), f.gender, NonEmpty(filename), USER, false, Some(f.address))
  }

  const AlreadyExists := "User already exists with this email or phone number"

  function RegisterSpec(t: Tables, f: RegisterForm, filename: Option<string>, newId: UserId,
                        hash: string -> string, sign: UserId -> string): (Tables, Outcome<AuthResponse>)
    requires newId !in t.users
  {
    if Taken(t.users, f.email, f.phone) then (t, Refused(400, AlreadyExists))
    else
      var u := NewUser(f, hash, filename);
      (t.(users := t.users[newId := u]), Done(201, AuthResponse("User registered successfully", WithoutPassword(newId, u), sign(newId))))
  }

  /** The route as a whole: `upload.single('photo')`, with the case documents' filter and
      limits, runs first; a refused file ends the request with the error handler's 500
      and no user is created. The handler sees the taken file's stored name, if any. */
  function RegisterRoute(t: Tables, f: RegisterForm, files: seq<UploadedFile>, maxFileSize: nat, newId: UserId,
                         hash: string -> string, sign: UserId -> string): (Tables, Outcome<AuthResponse>)
    requires newId !in t.users
  {
    match MulterRefusal(files, MulterLimits(1, Some(MaxFiles), maxFileSize), AcceptsDocument, InvalidTypeMessage)
    case Some(m) => (t, Refused(500, m))
    case None => RegisterSpec(t, f, if files == [] then None else Some(files[0].filename), newId, hash, sign)
  }

  /** A user is created only with at most one file, of an allowed type and within the
      size limit; a second file, another type or an oversized file writes nothing. */
  lemma RegisterRouteGate(t: Tables, f: RegisterForm, files: seq<UploadedFile>, maxFileSize: nat, newId: UserId,
                          hash: string -> string, sign: UserId -> string)
    requires newId !in t.users
    ensures var (t', out) := RegisterRoute(t, f, files, maxFileSize, newId, hash, sign);
      && (out.Done? ==> |files| <= 1
                        && forall k :: 0 <= k < |files| ==> files[k].mimetype in AllowedTypes && files[k].size <= maxFileSize)
      && ((|files| > 1 || exists k :: 0 <= k < |files| && (files[k].mimetype !in AllowedTypes || files[k].size > maxFileSize)) ==>
            t' == t && out.Refused? && out.code == 500)
      && (|files| == 1 && files[0].mimetype in AllowedTypes && files[0].size <= maxFileSize ==>
            (t', out) == RegisterSpec(t, f, Some(files[0].filename), newId, hash, sign))
      && (files == [] ==> (t', out) == RegisterSpec(t, f, None, newId, hash, sign))
  {
    MulterPasses(files, MulterLimits(1, Some(MaxFiles), maxFileSize), AcceptsDocument, InvalidTypeMessage);
  }

  /** A clash on either the email or the phone refuses and writes nothing; there is no
      other way to fail. */
  lemma RegisterGate(t: Tables, f: RegisterForm, filename: Option<string>, newId: UserId,
                     hash: string -> string, sign: UserId -> string)
    requires newId !in t.users
    ensures var (t', out) := RegisterSpec(t, f, filename, newId, hash, sign);
      && (out.Refused? <==> exists id :: id in t.users && (t.users[id].email == f.email || t.users[id].phone == f.phone))
      && (out.Refused? ==> t' == t && out == Refused(400, AlreadyExists))
      && !out.Failed?
  {
  }

  /** Otherwise exactly one row is added, storing the hash and not the password, with
      the photo only when a named file came with the request, and the response carries
      it. */
  lemma RegisterAddsOneUser(t: Tables, f: RegisterForm, filename: Option<string>, newId: UserId,
                            hash: string -> string, sign: UserId -> string)
    requires newId !in t.users
    ensures var (t', out) := RegisterSpec(t, f, filename, newId, hash, sign);
      out.Done? ==>
        && t'.users.Keys == t.users.Keys + {newId}
        && (forall id :: id in t.users ==> t'.users[id] == t.users[id])
        && t'.users[newId].password == hash(f.password)
        && (t'.users[newId].photo.Some? <==> filename.Some? && filename.value != [])
        && out.value.user == WithoutPassword(newId, t'.users[newId])
        && t' == t.(users := t'.users)
  {
    if !Taken(t.users, f.email, f.phone) {
      var u := NewUser(f, hash, filename);
      assert RegisterSpec(t, f, filename, newId, hash, sign).0 == t.(users := t.users[newId := u]);
      assert u.photo == NonEmpty(filename);
    }
  }

  /** Checking both columns before the insert keeps emails and phone numbers unique. */
  lemma RegisterKeepsCredentialsUnique(t: Tables, f: RegisterForm, filename: Option<string>, newId: UserId,
                                       hash: string -> string, sign: UserId -> string)
    requires newId !in t.users && CredentialsUnique(t.users)
    ensures CredentialsUnique(RegisterSpec(t, f, filename, newId, hash, sign).0.users)
  {
    var t' := RegisterSpec(t, f, filename, newId, hash, sign).0;
    forall a, b | a in t'.users && b in t'.users && a != b
      ensures t'.users[a].email != t'.users[b].email && t'.users[a].phone != t'.users[b].phone
    {
      if a == newId || b == newId {
        assert !Taken(t.users, f.email, f.phone);
      }
    }
  }

  /** Checks for an existing user, then inserts. */
  method Register(db: Database, f: RegisterForm, filename: Option<string>, newId: UserId,
                  hash: string -> string, sign: UserId -> string) returns (out: Outcome<AuthResponse>)
    requires db.Valid() && newId !in db.users
    modifies db`users
    ensures db.Valid()
    ensures (db.Snapshot(), out) == RegisterSpec(old(db.Snapshot()), f, filename, newId, hash, sign)
  {
    var existing := exists id :: id in db.users && (db.users[id].email == f.email || db.users[id].phone == f.phone);
    if existing {
      return Refused(400, AlreadyExists);
    }
    var hashed := hash(f.password);
    var user := User(f.name, f.email, f.phone, hashed, Some(f.age), f.gender, NonEmpty(filename), USER, false, Some(f.address));
    db.users := db.users[newId := user];
    return Done(201, AuthResponse("User registered successfully", WithoutPassword(newId, user), sign(newId)));
  }

  // ----- login -----

  const LoginFailure := "Invalid email or password"

  /** `findUnique({ where: { email } })`, then the hash comparison. An unknown email and
      a wrong password get one and the same answer. Only reads the user table. */
  method Login(db: Database, email: string, password: string, matches: (string, string) -> bool,
               sign: UserId -> string) returns (out: Outcome<AuthResponse>)
    ensures !out.Failed?
    ensures out.Refused? ==> out == Refused(401, LoginFailure)
    ensures (forall id :: id in db.users && db.users[id].email == email ==> !matches(password, db.users[id].password))
              ==> out == Refused(401, LoginFailure)
    ensures out.Done? ==>
              exists id :: id in db.users && db.users[id].email == email && matches(password, db.users[id].password) &&
                out == Done(200, AuthResponse("Login successful", WithoutPassword(id, db.users[id]), sign(id)))
    ensures CredentialsUnique(db.users) ==>
              (out.Done? <==> exists id :: id in db.users && db.users[id].email == email && matches(password, db.users[id].password))
  {
    var found := set id | id in db.users && db.users[id].email == email;
    if found == {} {
      assert forall other :: other in db.users && db.users[other].email == email ==> other in found;
      return Refused(401, LoginFailure);
    }
    var id :| id in found;
    var user := db.users[id];
    if !matches(password, user.password) {
      if CredentialsUnique(db.users) {
        forall other | other in db.users && db.users[other].email == email
          ensures !matches(password, db.users[other].password)
        {
          assert other == id;
        }
      }
      return Refused(401, LoginFailure);
    }
    return Done(200, AuthResponse("Login successful", WithoutPassword(id, user), sign(id)));
  }

  // ----- verify -----

  /** `authHeader && authHeader.split(' ')[1]`, where a missing header, an empty one, a
      missing second word and an empty second word all leave no token. */
  function BearerToken(header: Option<string>): (r: Option<string>)
    ensures r.Some? ==> r.value != [] && ' ' !in r.value
  {
    if header.None? || header.value == [] then None
    else
      var parts := Split(header.value, ' ');
      if |parts| < 2 || parts[1] == [] then None else Some(parts[1])
  }

  /** Splitting at the first separator: what comes before it is the first piece. */
  lemma {:induction false} SplitAtFirst(a: string, b: string, sep: char)
    requires sep !in a
    ensures Split(a + [sep] + b, sep) == [a] + Split(b, sep)
    decreases |a|
  {
    if a == [] {
      assert a + [sep] + b == [sep] + b;
    } else {
      var s := a + [sep] + b;
      assert s[0] == a[0] && s[1..] == a[1..] + [sep] + b;
      assert a[0] != sep by { assert a[0] in a; }
      SplitAtFirst(a[1..], b, sep);
      assert [a[0]] + a[1..] == a;
    }
  }

  lemma {:induction false} SplitWithoutSeparator(s: string, sep: char)
    requires sep !in s
    ensures Split(s, sep) == [s]
    decreases |s|
  {
    if s != [] {
      assert s[0] != sep by { assert s[0] in s; }
      assert sep !in s[1..] by {
        forall k | 0 <= k < |s[1..]| ensures s[1..][k] != sep { assert s[1..][k] == s[k + 1]; }
      }
      SplitWithoutSeparator(s[1..], sep);
      assert [s[0]] + s[1..] == s;
    }
  }

  /** The header `Bearer <token>` gives the token back, for any token without spaces. */
  lemma BearerRoundTrip(token: string)
    requires token != [] && ' ' !in token
    ensures BearerToken(Some("Bearer " + token)) == Some(token)
  {
    assert "Bearer " + token == "Bearer" + [' '] + token;
    SplitAtFirst("Bearer", token, ' ');
    SplitWithoutSeparator(token, ' ');
  }

  /** The token's user, without the password; 401 for a missing token, one that does not
      verify, or one whose user is gone. */
  function VerifySpec(t: Tables, header: Option<string>, decode: string -> Option<UserId>): Outcome<PublicUser> {
    var token := BearerToken(header);
    if token.None? then Refused(401, "No token provided")
    else if decode(token.value).None? || decode(token.value).value !in t.users then Refused(401, "Invalid token")
    else
      var id := decode(token.value).value;
      Done(200, WithoutPassword(id, t.users[id]))
  }

  /** Every failure is a 401, "No token provided" exactly when there is no token, and a
      success shows the user the token names. */
  lemma VerifyFailures(t: Tables, header: Option<string>, decode: string -> Option<UserId>)
    ensures var out := VerifySpec(t, header, decode);
      && !out.Failed?
      && (out.Refused? ==> out.code == 401)
      && (out == Refused(401, "No token provided") <==> BearerToken(header).None?)
      && (out.Done? <==> BearerToken(header).Some? && decode(BearerToken(header).value).Some?
                          && decode(BearerToken(header).value).value in t.users)
      && (out.Done? ==> out.value == WithoutPassword(decode(BearerToken(header).value).value,
                                                     t.users[decode(BearerToken(header).value).value]))
  {
  }

  /** The handler as written: its `findUnique` passes both `include` and `select`, which
      the query layer refuses with a validation error, and the `catch` answers that with
      "Invalid token" whatever the token. */
  function VerifySpecAsWritten(t: Tables, header: Option<string>, decode: string -> Option<UserId>): Outcome<PublicUser> {
    var token := BearerToken(header);
    if token.None? then Refused(401, "No token provided")
    else Refused(401, "Invalid token")
  }

  /** As written, no token verifies: even a token whose user exists is refused. */
  lemma ValidTokenRefusedAsWritten(t: Tables, token: string, id: UserId, decode: string -> Option<UserId>)
    requires token != [] && ' ' !in token && id in t.users && decode(token) == Some(id)
    ensures VerifySpec(t, Some("Bearer " + token), decode).Done?
    ensures VerifySpecAsWritten(t, Some("Bearer " + token), decode) == Refused(401, "Invalid token")
  {
    BearerRoundTrip(token);
  }
}
