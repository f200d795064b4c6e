/** Account registration with an e-mailed four-digit code, e-mail verification, and
    password login, over the stored user records. Password hashing and code hashing
    (bcrypt) are a `digest` function the caller supplies; token signing (JWT) is
    `sign`, given the user id and the lifetime in days. */
module AuthController {
  import opened Optional

  /** A stored user. `password` holds the digest the pre-save hook writes. */
  datatype UserRecord = UserRecord(
    id: string, name: string, username: string, institute: string, email: string,
    password: string, role: string, isVerified: bool,
    verificationCode: Option<string>, verificationCodeExpires: Option<int>)

  /** A user without its password, as `select('-password')` or `{password, ...others}`
      returns it. */
  datatype PublicUser = PublicUser(
    id: string, name: string, username: string, institute: string, email: string,
    role: string, isVerified: bool,
    verificationCode: Option<string>, verificationCodeExpires: Option<int>)

  /** The login answer's account fields. */
  datatype Account = Account(id: string, name: string, username: string, email: string, institute: string)

  datatype Body =
    | Message(text: string)
    | ServerError
    | CodeSent(userId: string)
    | Verified(user: PublicUser, token: string)
    | LoggedIn(account: Account, token: string)

  datatype Reply = Reply(status: int, body: Body)

  /** The httpOnly `token` cookie login sets. */
  datatype Cookie = Cookie(token: string, maxAgeMillis: int)

  const CodeLifetimeMillis: int := 10 * 60 * 1000
  const LoginTokenDays: int := 7
  const VerifyTokenDays: int := 30
  const CookieMaxAgeMillis: int := 7 * 24 * 60 * 60 * 1000

  function WithoutPassword(u: UserRecord): (p: PublicUser)
    ensures p.id == u.id && p.email == u.email && p.isVerified == u.isVerified
    ensures p.name == u.name && p.username == u.username && p.institute == u.institute
    ensures p.role == u.role
    ensures p.verificationCode == u.verificationCode && p.verificationCodeExpires == u.verificationCodeExpires
  {
    PublicUser(u.id, u.name, u.username, u.institute, u.email, u.role, u.isVerified,
               u.verificationCode, u.verificationCodeExpires)
  }

  /** `bcrypt.compare(plain, hashed)`, for a digest without salt. */
  predicate Compare(digest: string -> string, plain: string, hashed: string) {
    digest(plain) == hashed
  }

  /** `findOne({ email })`: the first record with that e-mail. */
  function IndexOfEmail(users: seq<UserRecord>, email: string): (r: Option<nat>)
    ensures r.None? <==> forall i :: 0 <= i < |users| ==> users[i].email != email
    ensures r.Some? ==> r.value < |users| && users[r.value].email == email
    ensures r.Some? ==> forall j :: 0 <= j < r.value ==> users[j].email != email
  {
    if users == [] then None
    else if users[0].email == email then Some(0)
    else
      var r := IndexOfEmail(users[1..], email);
      if r.Some? then Some(r.value + 1) else None
  }

  /** `findById(id)`: the first record with that id. */
  function IndexOfId(users: seq<UserRecord>, id: string): (r: Option<nat>)
    ensures r.None? <==> forall i :: 0 <= i < |users| ==> users[i].id != id
    ensures r.Some? ==> r.value < |users| && users[r.value].id == id
    ensures r.Some? ==> forall j :: 0 <= j < r.value ==> users[j].id != id
  {
    if users == [] then None
    else if users[0].id == id then Some(0)
    else
      var r := IndexOfId(users[1..], id);
      if r.Some? then Some(r.value + 1) else None
  }

  /** A record appended under a new id is the one found by that id. */
  lemma {:induction false} IndexOfIdAppend(users: seq<UserRecord>, u: UserRecord)
    requires forall i :: 0 <= i < |users| ==> users[i].id != u.id
    ensures IndexOfId(users + [u], u.id) == Some(|users|)
  {
    if users != [] {
      assert (users + [u])[1..] == users[1..] + [u];
      IndexOfIdAppend(users[1..], u);
    }
  }

  /** The same for e-mail addresses. */
  lemma {:induction false} IndexOfEmailAppend(users: seq<UserRecord>, u: UserRecord)
    requires forall i :: 0 <= i < |users| ==> users[i].email != u.email
    ensures IndexOfEmail(users + [u], u.email) == Some(|users|)
  {
    if users != [] {
      assert (users + [u])[1..] == users[1..] + [u];
      IndexOfEmailAppend(users[1..], u);
    }
  }

  /** Replacing a record by one with the same id finds the same position by id. */
  lemma {:induction false} IndexOfIdUpdate(users: seq<UserRecord>, k: nat, u: UserRecord, id: string)
    requires k < |users| && u.id == users[k].id
    ensures IndexOfId(users[k := u], id) == IndexOfId(users, id)
  {
    if k > 0 {
      assert users[k := u][1..] == users[1..][k - 1 := u];
      IndexOfIdUpdate(users[1..], k - 1, u, id);
    }
  }

  /** The same for e-mail addresses. */
  lemma {:induction false} IndexOfEmailUpdate(users: seq<UserRecord>, k: nat, u: UserRecord, email: string)
    requires k < |users| && u.email == users[k].email
    ensures IndexOfEmail(users[k := u], email) == IndexOfEmail(users, email)
  {
    if k > 0 {
      assert users[k := u][1..] == users[1..][k - 1 := u];
      IndexOfEmailUpdate(users[1..], k - 1, u, email);
    }
  }

  function FindById(users: seq<UserRecord>, id: string): (u: Option<UserRecord>)
    ensures u.Some? ==> u.value in users && u.value.id == id
    ensures u.None? <==> forall i :: 0 <= i < |users| ==> users[i].id != id
  {
    var k := IndexOfId(users, id);
    if k.Some? then Some(users[k.value]) else None
  }

  function DigitChar(d: int): (c: char)
    requires 0 <= d <= 9
    ensures '0' <= c <= '9' && c as int - '0' as int == d
  {
    (d + '0' as int) as char
  }

  function DigitValue(c: char): int {
    c as int - '0' as int
  }

  /** `Math.floor(1000 + r * 9000)` for `r = Math.random()`: a number from 1000 to 9999. */
  function CodeNumber(r: real): (n: int)
    requires 0.0 <= r < 1.0
    ensures 1000 <= n <= 9999
  {
    (1000.0 + r * 9000.0).Floor
  }

  /** `n.toString()` for a four-digit number: four decimal digits, no leading zero,
      that read back as `n`. */
  function FourDigits(n: int): (s: string)
    requires 1000 <= n <= 9999
    ensures |s| == 4 && s[0] != '0'
    ensures forall i :: 0 <= i < 4 ==> '0' <= s[i] <= '9'
    ensures DigitValue(s[0]) * 1000 + DigitValue(s[1]) * 100 + DigitValue(s[2]) * 10 + DigitValue(s[3]) == n
  {
    var a, r := n / 1000, n % 1000;
    var b, r2 := r / 100, r % 100;
    var c, d := r2 / 10, r2 % 10;
    assert n == a * 1000 + r && r == b * 100 + r2 && r2 == c * 10 + d;
    [DigitChar(a), DigitChar(b), DigitChar(c), DigitChar(d)]
  }

  /** Distinct numbers give distinct codes. */
  lemma FourDigitsInjective(m: int, n: int)
    requires 1000 <= m <= 9999 && 1000 <= n <= 9999
    requires FourDigits(m) == FourDigits(n)
    ensures m == n
  {
  }

  /** The record the register handler builds: the verification code's digest and an
      expiry ten minutes after `now`; the password digest is the one the pre-save hook
      writes (the digest the handler computes itself is never used). */
  function NewUser(digest: string -> string, id: string, name: string, username: string,
                   institute: string, email: string, password: string,
                   code: string, now: int): (u: UserRecord)
    ensures !u.isVerified && u.role == "student"
    ensures u.verificationCode == Some(digest(code))
    ensures u.verificationCodeExpires == Some(now + CodeLifetimeMillis)
    ensures Compare(digest, password, u.password)
  {
    UserRecord(id, name, username, institute, email, digest(password), "student", false,
               Some(digest(code)), Some(now + CodeLifetimeMillis))
  }

  /** The record as the User schema of `models/User.js` saves it: that schema declares
      neither `verificationCode` nor `verificationCodeExpires`, so both are dropped. */
  function StoredBySchema(u: UserRecord): (s: UserRecord)
    ensures s.verificationCode == None && s.verificationCodeExpires == None
    ensures s.(verificationCode := u.verificationCode, verificationCodeExpires := u.verificationCodeExpires) == u
  {
    u.(verificationCode := None, verificationCodeExpires := None)
  }

  /** The outcome of the verification checks, in the handler's order. */
  datatype VerifyStep = NoUser | AlreadyVerified | Expired | CompareThrows | WrongCode | Accept

  /** `user.verificationCodeExpires < Date.now()`; `undefined < now` is false. */
  predicate ExpiredAt(u: UserRecord, now: int) {
    u.verificationCodeExpires.Some? && u.verificationCodeExpires.value < now
  }

  /** The checks of `verifyEmail`. A missing expiry is never "expired"
      (`undefined < now` is false); a missing stored code makes `bcrypt.compare` throw. */
  function CheckVerification(digest: string -> string, user: Option<UserRecord>, code: string, now: int): (step: VerifyStep)
    ensures step == Accept <==>
      user.Some? && !user.value.isVerified
      && !(user.value.verificationCodeExpires.Some? && user.value.verificationCodeExpires.value < now)
      && user.value.verificationCode.Some? && Compare(digest, code, user.value.verificationCode.value)
    ensures step == NoUser <==> user.None?
    ensures step == AlreadyVerified <==> user.Some? && user.value.isVerified
    ensures step == Expired <==> user.Some? && !user.value.isVerified && ExpiredAt(user.value, now)
    ensures step == CompareThrows <==>
      user.Some? && !user.value.isVerified && !ExpiredAt(user.value, now) && user.value.verificationCode.None?
    ensures step == WrongCode <==>
      user.Some? && !user.value.isVerified && !ExpiredAt(user.value, now)
      && user.value.verificationCode.Some? && !Compare(digest, code, user.value.verificationCode.value)
  {
    if user.None? then NoUser
    else
      var u := user.value;
      if u.isVerified then AlreadyVerified
      else if ExpiredAt(u, now) then Expired
      else if u.verificationCode.None? then CompareThrows
      else if !Compare(digest, code, u.verificationCode.value) then WrongCode
      else Accept
  }

  /** As the schema stores a new account, no code, correct or not, verifies it: the
      handler always ends in the thrown comparison. */
  lemma VerifyFailsAsStored(digest: string -> string, id: string, name: string, username: string,
                            institute: string, email: string, password: string,
                            code: string, now: int, attempt: string, later: int)
    ensures CheckVerification(digest, Some(StoredBySchema(NewUser(digest, id, name, username, institute, email, password, code, now))), attempt, later)
            == CompareThrows
  {
  }

  /** With the code fields kept, the mailed code verifies the new account up to ten minutes
      after registration, and no other code does. */
  lemma VerifyAcceptsMailedCode(digest: string -> string, id: string, name: string, username: string,
                                institute: string, email: string, password: string,
                                code: string, now: int, attempt: string, later: int)
    requires later <= now + CodeLifetimeMillis
    ensures var u := NewUser(digest, id, name, username, institute, email, password, code, now);
      CheckVerification(digest, Some(u), attempt, later) == (if digest(attempt) == digest(code) then Accept else WrongCode)
  {
  }

  /** After the code's lifetime the account can no longer be verified. */
  lemma VerifyRejectsLateCode(digest: string -> string, id: string, name: string, username: string,
                              institute: string, email: string, password: string,
                              code: string, now: int, attempt: string, later: int)
    requires later > now + CodeLifetimeMillis
    ensures CheckVerification(digest, Some(NewUser(digest, id, name, username, institute, email, password, code, now)), attempt, later) == Expired
  {
  }

  /** No two users share an e-mail address. */
  ghost predicate UniqueEmails(users: seq<UserRecord>) {
    forall i, j :: 0 <= i < j < |users| ==> users[i].email != users[j].email
  }

  /** No two users share a username: the schema's unique index on `username`. */
  ghost predicate UniqueUsernames(users: seq<UserRecord>) {
    forall i, j :: 0 <= i < j < |users| ==> users[i].username != users[j].username
  }

  /** Some stored user already has that username, so the unique index refuses a save. */
  predicate UsernameTaken(users: seq<UserRecord>, username: string) {
    exists i :: 0 <= i < |users| && users[i].username == username
  }

  /** The registration, verification and login handlers over the users collection. */
  class AuthService {
    var users: seq<UserRecord>

    ghost predicate Valid()
      reads this
    {
      UniqueEmails(users) && UniqueUsernames(users)
    }

    constructor ()
      ensures users == [] && Valid()
    {
      users := [];
    }

    /** `registerUser`. `random` is the `Math.random()` draw, `newId` the id the
        database assigns, `mailOk` whether the mail was sent. A taken e-mail is refused
        with 400; a taken username makes the save fail on the unique index, which the
        catch answers with 500 before any mail; a failed mail answers 500 after the user
        is saved. */
    method Register(digest: string -> string, name: string, username: string, institute: string,
                    email: string, password: string, random: real, newId: string, now: int, mailOk: bool)
      returns (reply: Reply, mailedCode: Option<string>)
      requires 0.0 <= random < 1.0
      requires Valid()
      modifies this
      ensures Valid()
      ensures var code := FourDigits(CodeNumber(random));
        if IndexOfEmail(old(users), email).Some? then
          reply == Reply(400, Message("User already exists")) && users == old(users) && mailedCode == None
        else if UsernameTaken(old(users), username) then
          reply == Reply(500, ServerError) && users == old(users) && mailedCode == None
        else
          users == old(users) + [NewUser(digest, newId, name, username, institute, email, password, code, now)]
          && mailedCode == Some(code)
          && reply == (if mailOk then Reply(201, CodeSent(newId)) else Reply(500, ServerError))
    {
      if IndexOfEmail(users, email).Some? {
        return Reply(400, Message("User already exists")), None;
      }
      if UsernameTaken(users, username) {
        return Reply(500, ServerError), None;
      }
      var code := FourDigits(CodeNumber(random));
      users := users + [NewUser(digest, newId, name, username, institute, email, password, code, now)];
      mailedCode := Some(code);
      if mailOk {
        reply := Reply(201, CodeSent(newId));
      } else {
        reply := Reply(500, ServerError);
      }
    }

    /** `verifyEmail`: on acceptance the record is marked verified, its code fields are
        cleared, and the answer carries the record without its password and a
        thirty-day token. */
    method VerifyEmail(digest: string -> string, sign: (string, int) -> string,
                       userId: string, code: string, now: int) returns (reply: Reply)
      requires Valid()
      modifies this
      ensures Valid()
      ensures var k := IndexOfId(old(users), userId);
        var step := CheckVerification(digest, if k.Some? then Some(old(users)[k.value]) else None, code, now);
        match step
        case NoUser => reply == Reply(400, Message("User not found")) && users == old(users)
        case AlreadyVerified => reply == Reply(400, Message("User already verified")) && users == old(users)
        case Expired => reply == Reply(400, Message("Code expired")) && users == old(users)
        case CompareThrows => reply == Reply(500, ServerError) && users == old(users)
        case WrongCode => reply == Reply(400, Message("Invalid code")) && users == old(users)
        case Accept =>
          var u := old(users)[k.value].(isVerified := true, verificationCode := None, verificationCodeExpires := None);
          users == old(users)[k.value := u]
          && reply == Reply(200, Verified(WithoutPassword(u), sign(userId, VerifyTokenDays)))
    {
      var k := IndexOfId(users, userId);
      var step := CheckVerification(digest, if k.Some? then Some(users[k.value]) else None, code, now);
      match step {
        case NoUser => reply := Reply(400, Message("User not found"));
        case AlreadyVerified => reply := Reply(400, Message("User already verified"));
        case Expired => reply := Reply(400, Message("Code expired"));
        case CompareThrows => reply := Reply(500, ServerError);
        case WrongCode => reply := Reply(400, Message("Invalid code"));
        case Accept =>
          var u := users[k.value].(isVerified := true, verificationCode := None, verificationCodeExpires := None);
          users := users[k.value := u];
          reply := Reply(200, Verified(WithoutPassword(u), sign(userId, VerifyTokenDays)));
      }
    }

    /** `loginUser`: the first user with that e-mail whose password digest matches gets
        a seven-day token, in the answer and in the cookie. Whether the account is
        verified is not looked at. */
    method Login(digest: string -> string, sign: (string, int) -> string, email: string, password: string)
      returns (reply: Reply, cookie: Option<Cookie>)
      ensures var k := IndexOfEmail(users, email);
        if k.Some? && Compare(digest, password, users[k.value].password) then
          var u := users[k.value];
          var token := sign(u.id, LoginTokenDays);
          reply == Reply(200, LoggedIn(Account(u.id, u.name, u.username, u.email, u.institute), token))
          && cookie == Some(Cookie(token, CookieMaxAgeMillis))
        else
          reply == Reply(401, Message("Invalid email or password")) && cookie == None
    {
      var k := IndexOfEmail(users, email);
      if k.Some? && Compare(digest, password, users[k.value].password) {
        var u := users[k.value];
        var token := sign(u.id, LoginTokenDays);
        reply := Reply(200, LoggedIn(Account(u.id, u.name, u.username, u.email, u.institute), token));
        cookie := Some(Cookie(token, CookieMaxAgeMillis));
      } else {
        reply := Reply(401, Message("Invalid email or password"));
        cookie := None;
      }
    }
  }

  /** With a fresh e-mail and a fresh username, registering succeeds, the mailed code
      verifies the account, and a second verification is refused; the stored password
      then logs in. */
  method RegisterVerifyLogin(s: AuthService, digest: string -> string, sign: (string, int) -> string,
                             name: string, username: string, institute: string, email: string,
                             password: string, random: real, newId: string, now: int)
    returns (registered: Reply, verified: Reply, again: Reply, login: Reply, cookie: Option<Cookie>)
    requires s.Valid() && 0.0 <= random < 1.0
    requires forall i :: 0 <= i < |s.users| ==> s.users[i].email != email && s.users[i].username != username && s.users[i].id != newId
    modifies s
    ensures registered == Reply(201, CodeSent(newId))
    ensures verified.status == 200
    ensures again == Reply(400, Message("User already verified"))
    ensures login.status == 200 && cookie.Some?
  {
    var code;
    registered, code := s.Register(digest, name, username, institute, email, password, random, newId, now, true);
    var before := old(s.users);
    var u := NewUser(digest, newId, name, username, institute, email, password, code.value, now);
    IndexOfIdAppend(before, u);
    IndexOfEmailAppend(before, u);
    verified := s.VerifyEmail(digest, sign, newId, code.value, now);
    var v := u.(isVerified := true, verificationCode := None, verificationCodeExpires := None);
    IndexOfIdUpdate(before + [u], |before|, v, newId);
    IndexOfEmailUpdate(before + [u], |before|, v, email);
    again := s.VerifyEmail(digest, sign, newId, code.value, now);
    login, cookie := s.Login(digest, sign, email, password);
  }
}
