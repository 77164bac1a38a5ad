/** Registration and login (`POST /register`, `POST /login`) over the user
    collection, which is a map from email to the stored account.

    `RegisterStep` and `LoginStep` say what one request does to the collection and
    what it replies; `UserStore` is the collection as the handlers use it, one
    query or save at a time, and its methods are proved against the two steps. */
module Auth {
  import opened Wrappers
  import opened Text
  import opened Bcrypt

  const AdminEmail := "ceerhod@cmrcet.ac.in"
  const AdminPassword := "1234"
  const Domain := "@cmrcet.ac.in"
  const AdminRole := "admin"

  const AdminOnlyMessage := "Admin role can only be assigned to ceerhod@cmrcet.ac.in"
  const DomainMessage := "Only @cmrcet.ac.in emails allowed"
  const DuplicateMessage := "User already exists"
  const RegisteredMessage := "Registration successful"
  const NotFoundMessage := "User not found"
  const WrongPasswordMessage := "Incorrect password"
  const LoggedInMessage := "Login successful"

  /** A stored user document, without its key. `role` is whatever string the
      registration request carried ("student", "technician", "admin"). */
  datatype Account = Account(passwordHash: Digest, role: string)

  type Users = map<string, Account>

  datatype RegisterReply = Registered | RegisterRejected(message: string)
  {
    function Status(): int { if Registered? then 200 else 400 }
    function Message(): string { if Registered? then RegisteredMessage else message }
  }

  datatype LoginReply = LoggedIn(role: string) | LoginRejected(message: string)
  {
    function Status(): int { if LoggedIn? then 200 else 400 }
    function Message(): string { if LoggedIn? then LoggedInMessage else message }
  }

  /** What a request replies and the user collection it leaves behind. */
  datatype Outcome<R> = Outcome(reply: R, users: Users)

  /** The collection invariant the two handlers keep: every address is in the
      institutional domain and only the fixed admin address holds the admin role,
      so there is at most one admin account. */
  ghost predicate WellFormed(users: Users)
  {
    forall e :: e in users ==> EndsWith(e, Domain) && (users[e].role == AdminRole ==> e == AdminEmail)
  }

  lemma AdminEmailInDomain()
    ensures EndsWith(AdminEmail, Domain)
  {
    assert AdminEmail == "ceerhod" + Domain;
    EndsWithIsConcat(AdminEmail, Domain);
  }

  // ---------------------------------------------------------------- register

  /** `POST /register {email, password, role}`: the admin-role gate, then the
      domain check, then the duplicate check; only then one record is saved. */
  function RegisterStep(users: Users, email: string, password: string, role: string, salt: Salt)
    : (out: Outcome<RegisterReply>)
    ensures out.reply.RegisterRejected? ==> out.users == users
    ensures out.reply.Registered? ==> email !in users && email in out.users
    ensures out.users.Keys == users.Keys + (if out.reply.Registered? then {email} else {})
    ensures forall e :: e in users ==> out.users[e] == users[e]
  {
    if role == AdminRole && email != AdminEmail then
      Outcome(RegisterRejected(AdminOnlyMessage), users)
    else if !EndsWith(email, Domain) then
      Outcome(RegisterRejected(DomainMessage), users)
    else if email in users then
      Outcome(RegisterRejected(DuplicateMessage), users)
    else
      Outcome(Registered, users[email := Account(Hash(password, salt), role)])
  }

  /** Asking for the admin role from any other address is refused first. */
  lemma RegisterRejectsForeignAdmin(users: Users, email: string, password: string, salt: Salt)
    requires email != AdminEmail
    ensures RegisterStep(users, email, password, AdminRole, salt)
         == Outcome(RegisterRejected(AdminOnlyMessage), users)
  {
  }

  /** An address outside the domain is always refused and changes nothing; the
      message is the domain one unless the admin gate fired before it. */
  lemma RegisterRejectsForeignDomain(users: Users, email: string, password: string, role: string, salt: Salt)
    requires !EndsWith(email, Domain)
    ensures RegisterStep(users, email, password, role, salt)
         == Outcome(RegisterRejected(if role == AdminRole then AdminOnlyMessage else DomainMessage), users)
  {
    AdminEmailInDomain();
  }

  /** A known address is refused and changes nothing; in a well-formed
      collection, with an allowed role, the message is "User already exists". */
  lemma RegisterRejectsDuplicate(users: Users, email: string, password: string, role: string, salt: Salt)
    requires email in users
    ensures RegisterStep(users, email, password, role, salt).reply.RegisterRejected?
    ensures RegisterStep(users, email, password, role, salt).users == users
    ensures WellFormed(users) && (role != AdminRole || email == AdminEmail) ==>
              RegisterStep(users, email, password, role, salt).reply == RegisterRejected(DuplicateMessage)
  {
  }

  /** Registration succeeds exactly when all three checks pass, and then it adds
      one record holding the hashed password and the requested role. */
  lemma RegisterSucceeds(users: Users, email: string, password: string, role: string, salt: Salt)
    ensures var out := RegisterStep(users, email, password, role, salt);
      out.reply == Registered <==>
        (role != AdminRole || email == AdminEmail) && EndsWith(email, Domain) && email !in users
    ensures var out := RegisterStep(users, email, password, role, salt);
      out.reply == Registered ==>
        && out.users == users[email := Account(Hash(password, salt), role)]
        && |out.users| == |users| + 1
        && out.reply.Status() == 200 && out.reply.Message() == RegisteredMessage
  {
  }

  /** Registering the same address twice: success, then "User already exists". */
  lemma RegisterTwice(users: Users, email: string, password: string, password': string, role: string,
                      salt: Salt, salt': Salt)
    requires RegisterStep(users, email, password, role, salt).reply == Registered
    ensures var first := RegisterStep(users, email, password, role, salt);
      RegisterStep(first.users, email, password', role, salt')
        == Outcome(RegisterRejected(DuplicateMessage), first.users)
  {
  }

  lemma RegisterKeepsWellFormed(users: Users, email: string, password: string, role: string, salt: Salt)
    requires WellFormed(users)
    ensures WellFormed(RegisterStep(users, email, password, role, salt).users)
  {
  }

  // ---------------------------------------------------------------- login

  /** `POST /login {email, password}`. The fixed admin credentials skip the hash
      check and create the admin record when it is missing; any other request
      looks the address up and compares the password with the stored digest. */
  function LoginStep(users: Users, email: string, password: string, salt: Salt): (out: Outcome<LoginReply>)
    ensures forall e :: e in users ==> e in out.users && out.users[e] == users[e]
    ensures out.users.Keys <= users.Keys + {AdminEmail}
    ensures out.users != users ==>
      && email == AdminEmail && password == AdminPassword && AdminEmail !in users
      && out.users == users[AdminEmail := Account(Hash(AdminPassword, salt), AdminRole)]
    ensures out.reply.LoggedIn? ==>
      out.reply.role == AdminRole || (email in users && out.reply.role == users[email].role)
  {
    if email == AdminEmail && password == AdminPassword then
      if AdminEmail in users then
        Outcome(LoggedIn(AdminRole), users)
      else
        Outcome(LoggedIn(AdminRole), users[AdminEmail := Account(Hash(AdminPassword, salt), AdminRole)])
    else if email !in users then
      Outcome(LoginRejected(NotFoundMessage), users)
    else if !Compare(password, users[email].passwordHash) then
      Outcome(LoginRejected(WrongPasswordMessage), users)
    else
      Outcome(LoggedIn(users[email].role), users)
  }

  /** The admin credentials always log in as admin; afterwards the admin address
      has a record, which is a new admin record exactly when none was there. */
  lemma AdminLoginSucceeds(users: Users, salt: Salt)
    ensures var out := LoginStep(users, AdminEmail, AdminPassword, salt);
      && out.reply == LoggedIn(AdminRole)
      && AdminEmail in out.users
      && (AdminEmail in users ==> out.users == users)
      && (AdminEmail !in users ==>
            out.users == users[AdminEmail := Account(Hash(AdminPassword, salt), AdminRole)])
  {
  }

  /** Logging in as admin twice has the effect of logging in once. */
  lemma AdminLoginIdempotent(users: Users, salt: Salt, salt': Salt)
    ensures var first := LoginStep(users, AdminEmail, AdminPassword, salt);
      LoginStep(first.users, AdminEmail, AdminPassword, salt') == first
  {
  }

  /** Away from the admin credentials, login never changes the collection and
      its reply is decided by the lookup and the digest comparison. */
  lemma LoginReadOnly(users: Users, email: string, password: string, salt: Salt)
    requires !(email == AdminEmail && password == AdminPassword)
    ensures var out := LoginStep(users, email, password, salt);
      && out.users == users
      && (email !in users ==> out.reply == LoginRejected(NotFoundMessage))
      && (email in users && !Compare(password, users[email].passwordHash) ==>
            out.reply == LoginRejected(WrongPasswordMessage))
      && (email in users && Compare(password, users[email].passwordHash) ==>
            out.reply == LoggedIn(users[email].role))
  {
  }

  /** A user who registered can log in with the same password and gets the
      registered role (admin, through the bootstrap path, for the admin credentials). */
  lemma RegisteredUserCanLogIn(users: Users, email: string, password: string, role: string,
                               salt: Salt, salt': Salt)
    requires RegisterStep(users, email, password, role, salt).reply == Registered
    ensures var registered := RegisterStep(users, email, password, role, salt).users;
      LoginStep(registered, email, password, salt')
        == Outcome(LoggedIn(if email == AdminEmail && password == AdminPassword then AdminRole else role),
                   registered)
  {
  }

  lemma LoginKeepsWellFormed(users: Users, email: string, password: string, salt: Salt)
    requires WellFormed(users)
    ensures WellFormed(LoginStep(users, email, password, salt).users)
  {
    AdminEmailInDomain();
  }

  // ---------------------------------------------------------------- the handlers

  /** The user collection, queried with `findOne` and written with `save`. */
  class UserStore {
    var users: Users

    ghost predicate Valid()
      reads this
    {
      WellFormed(users)
    }

    constructor ()
      ensures Valid() && users == map[]
    {
      users := map[];
    }

    /** `User.findOne({ email })`. */
    function FindOne(email: string): (found: Option<Account>)
      reads this
      ensures found.Some? <==> email in users
      ensures found.Some? ==> found.value == users[email]
    {
      if email in users then Some(users[email]) else None
    }

    method Register(email: string, password: string, role: string, salt: Salt) returns (reply: RegisterReply)
      requires Valid()
      modifies this
      ensures Valid()
      ensures Outcome(reply, users) == RegisterStep(old(users), email, password, role, salt)
    {
      RegisterKeepsWellFormed(users, email, password, role, salt);
      if role == AdminRole && email != AdminEmail {
        return RegisterRejected(AdminOnlyMessage);
      }
      if !EndsWith(email, Domain) {
        return RegisterRejected(DomainMessage);
      }
      var existingUser := FindOne(email);
      if existingUser.Some? {
        return RegisterRejected(DuplicateMessage);
      }
      var hashedPassword := Hash(password, salt);
      users := users[email := Account(hashedPassword, role)];
      reply := Registered;
    }

    method Login(email: string, password: string, salt: Salt) returns (reply: LoginReply)
      requires Valid()
      modifies this
      ensures Valid()
      ensures Outcome(reply, users) == LoginStep(old(users), email, password, salt)
    {
      LoginKeepsWellFormed(users, email, password, salt);
      if email == AdminEmail && password == AdminPassword {
        var adminUser := FindOne(AdminEmail);
        if adminUser.None? {
          var hashedPassword := Hash(AdminPassword, salt);
          users := users[AdminEmail := Account(hashedPassword, AdminRole)];
        }
        return LoggedIn(AdminRole);
      }
      var user := FindOne(email);
      if user.None? {
        return LoginRejected(NotFoundMessage);
      }
      var isMatch := Compare(password, user.value.passwordHash);
      if !isMatch {
        return LoginRejected(WrongPasswordMessage);
      }
      reply := LoggedIn(user.value.role);
    }
  }
}
