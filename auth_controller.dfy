/** Registration, password login and GitHub sign-in
    (Server/src/controllers/authController.js) over the User collection.
    Token signing, password hashing and the GitHub HTTP calls are supplied
    as parameters. */
module AuthController {
  import opened Common
  import opened Text
  import opened UserModel

  const DuplicateUser := "User already exists with this email or username"
  const BadCredentials := "Invalid email or password"
  const GithubFailed := "GitHub authentication failed"

  /** Some stored user has the e-mail or the username (the `$or` query, whose
      values pass the same `lowercase` and `trim` setters as stored ones). */
  predicate Taken(users: map<UserId, User>, email: string, username: string)
  {
    exists id :: id in users && (users[id].email == Lower(email) || users[id].username == Trim(username))
  }

  /** The document `register` creates, before its password is hashed. */
  function RegisteredUser(username: string, email: string, password: Option<string>, bio: Option<string>,
                          skills: Option<string>): (u: User)
    ensures u.username == Trim(username) && u.email == Lower(email)
    ensures u.skills == CommaList(skills)
    ensures u.password == password && u.bio == bio && u.followers == [] && u.following == []
  {
    TrimAllCommaList(skills);
    Normalize(NewUser(username, email, password, bio, CommaList(skills)))
  }

  /** POST /auth/register: 400 when the e-mail or the username is taken, 500
      when the new document fails validation (username length, missing
      password, long bio), and otherwise the user is stored with the hashed
      password (`hashed` is what bcrypt returns for it). */
  method Register(db: Users, username: string, email: string, password: Option<string>, bio: Option<string>,
                  skills: Option<string>, hashed: string, newId: UserId) returns (r: Reply<UserId>)
    requires db.Valid() && newId !in db.users && hashed != ""
    modifies db
    ensures db.Valid()
    ensures Taken(old(db.users), email, username) ==> r == Fail(400, DuplicateUser) && db.users == old(db.users)
    ensures !Taken(old(db.users), email, username) ==>
      var u := RegisteredUser(username, email, password, bio, skills);
      if ValidUser(u) then r == Ok(201, newId) && db.users == old(db.users)[newId := u.(password := Some(hashed))]
      else r.Fail? && r.status == 500 && db.users == old(db.users)
  {
    if Taken(db.users, email, username) {
      return Fail(400, DuplicateUser);
    }
    var u := RegisteredUser(username, email, password, bio, skills);
    if !ValidUser(u) {
      return Fail(500, "User validation failed");
    }
    InsertKeepsValid(db.users, newId, u.(password := Some(hashed)));
    db.users := db.users[newId := u.(password := Some(hashed))];
    r := Ok(201, newId);
  }

  /** POST /auth/login: an unknown e-mail and a wrong password get the same
      401 answer; a password missing from the request or from the stored
      document (a GitHub account) makes bcrypt throw (500). `matches` is
      `bcrypt.compare`. Nothing is changed. */
  method Login(db: Users, email: string, password: Option<string>, matches: (string, string) -> bool)
    returns (r: Reply<UserId>)
    requires db.Valid()
    ensures (forall id :: id in db.users ==> db.users[id].email != Lower(email)) ==> r == Fail(401, BadCredentials)
    ensures forall id :: id in db.users && db.users[id].email == Lower(email) ==>
      var stored := db.users[id].password;
      if password.None? || stored.None? then r.Fail? && r.status == 500
      else if matches(password.value, stored.value) then r == Ok(200, id)
      else r == Fail(401, BadCredentials)
  {
    var mail := Lower(email);
    if id :| id in db.users && db.users[id].email == mail {
      var stored := db.users[id].password;
      if password.None? || stored.None? {
        return Fail(500, "Illegal arguments: undefined, string");
      }
      if matches(password.value, stored.value) {
        return Ok(200, id);
      }
    }
    return Fail(401, BadCredentials);
  }

  /** The GitHub account data the two API calls return. */
  datatype GithubUser = GithubUser(id: string, login: string, email: Option<string>, htmlUrl: string,
                                   avatarUrl: string, bio: Option<string>)

  /** The `findOne` filter: the same GitHub id, or the same e-mail when GitHub
      reports one. */
  predicate GithubMatch(u: User, g: GithubUser)
  {
    u.githubId == Some(g.id) || (g.email.Some? && u.email == Lower(g.email.value))
  }

  /** Linking a found user to GitHub: the GitHub id and URL are set, the
      avatar is taken from GitHub only when the user has none, and nothing
      else changes. */
  function Linked(u: User, g: GithubUser): (v: User)
    ensures v.githubId == Some(g.id) && v.githubURL == Some(g.htmlUrl)
    ensures u.avatar != "" ==> v.avatar == u.avatar
    ensures u.avatar == "" ==> v.avatar == g.avatarUrl
    ensures v.(githubId := u.githubId, githubURL := u.githubURL, avatar := u.avatar) == u
  {
    u.(githubId := Some(g.id), githubURL := Some(g.htmlUrl), avatar := if u.avatar == "" then g.avatarUrl else u.avatar)
  }

  /** The document created for a GitHub account without a local user. */
  function GithubNewUser(g: GithubUser): (u: User)
    ensures u.username == Trim(g.login)
    ensures u.email == Lower(OrElse(g.email, g.login + "@github.com"))
    ensures u.githubId == Some(g.id) && u.password == None && u.isVerified
    ensures u.bio == Some(OrElse(g.bio, "")) && u.followers == [] && u.following == []
  {
    Normalize(User(g.login, OrElse(g.email, g.login + "@github.com"), None, g.avatarUrl,
                   Some(OrElse(g.bio, "")), [], Some(g.id), Some(g.htmlUrl), None, None, [], [], None, true))
  }

  /** Some other user already holds the new document's username or e-mail
      (the unique indexes reject the insert). */
  predicate Clash(users: map<UserId, User>, u: User)
  {
    exists id :: id in users && (users[id].username == u.username || users[id].email == u.email)
  }

  /** POST /auth/github: 400 without a code; a failing GitHub call is a 500.
      A matching user is linked if not linked yet (otherwise left alone); with
      no match a verified user without a password is created, unless its
      username or e-mail is invalid or taken (500). */
  method GithubAuth(db: Users, code: Option<string>, gh: Option<GithubUser>, newId: UserId) returns (r: Reply<UserId>)
    requires db.Valid() && newId !in db.users
    modifies db
    ensures db.Valid()
    ensures !Truthy(code) ==> r == Fail(400, "Authorization code is required") && db.users == old(db.users)
    ensures Truthy(code) && gh.None? ==> r == Fail(500, GithubFailed) && db.users == old(db.users)
    ensures Truthy(code) && gh.Some? && (exists id :: id in old(db.users) && GithubMatch(old(db.users)[id], gh.value)) ==>
      && r.Ok? && r.status == 200 && r.data in old(db.users)
      && GithubMatch(old(db.users)[r.data], gh.value)
      && (Truthy(old(db.users)[r.data].githubId) ==> db.users == old(db.users))
      && (!Truthy(old(db.users)[r.data].githubId) ==>
            db.users == old(db.users)[r.data := Linked(old(db.users)[r.data], gh.value)])
    ensures Truthy(code) && gh.Some? && !(exists id :: id in old(db.users) && GithubMatch(old(db.users)[id], gh.value)) ==>
      var u := GithubNewUser(gh.value);
      if ValidUser(u) && !Clash(old(db.users), u) then r == Ok(200, newId) && db.users == old(db.users)[newId := u]
      else r == Fail(500, GithubFailed) && db.users == old(db.users)
  {
    if !Truthy(code) {
      return Fail(400, "Authorization code is required");
    }
    if gh.None? {
      return Fail(500, GithubFailed);
    }
    var g := gh.value;
    if id :| id in db.users && GithubMatch(db.users[id], g) {
      var u := db.users[id];
      if !Truthy(u.githubId) {
        ReplaceKeepsValid(db.users, id, Linked(u, g));
        db.users := db.users[id := Linked(u, g)];
      }
      return Ok(200, id);
    }
    var u := GithubNewUser(g);
    if !ValidUser(u) || Clash(db.users, u) {
      return Fail(500, GithubFailed);
    }
    InsertKeepsValid(db.users, newId, u);
    db.users := db.users[newId := u];
    r := Ok(200, newId);
  }
}
