/** The User document (the Mongoose schema of Server/src/models/User.js): the
    `trim` and `lowercase` setters, the validators, the count virtuals, and
    the User collection with its unique indexes and follow graph. */
module UserModel {
  import opened Common
  import opened Text

  type UserId = Id

  const UsernameMin: nat := 3
  const UsernameMax: nat := 30
  const BioMax: nat := 500

  datatype SocialLinks = SocialLinks(twitter: Option<string>, linkedin: Option<string>, portfolio: Option<string>)

  /** `followers` and `following` hold the ids of the `{ user }` entries. */
  datatype User = User(
    username: string,
    email: string,
    password: Option<string>,
    avatar: string,
    bio: Option<string>,
    skills: seq<string>,
    githubId: Option<string>,
    githubURL: Option<string>,
    website: Option<string>,
    location: Option<string>,
    followers: seq<UserId>,
    following: seq<UserId>,
    socialLinks: Option<SocialLinks>,
    isVerified: bool)

  /** What the setters store: a trimmed username, a lower-cased e-mail and
      trimmed skills. */
  function Normalize(u: User): (n: User)
    ensures n.username == Trim(u.username) && n.email == Lower(u.email) && n.skills == TrimAll(u.skills)
    ensures n.(username := u.username, email := u.email, skills := u.skills) == u
  {
    u.(username := Trim(u.username), email := Lower(u.email), skills := TrimAll(u.skills))
  }

  predicate Normalized(u: User)
  {
    Normalize(u) == u
  }

  /** Setting a stored document's fields again stores the same values. */
  lemma NormalizeIdempotent(u: User)
    ensures Normalized(Normalize(u))
  {
    TrimIdempotent(u.username);
    LowerIdempotent(u.email);
    var t := TrimAll(u.skills);
    forall k | 0 <= k < |t| ensures Trim(t[k]) == t[k] {
      TrimIdempotent(u.skills[k]);
    }
  }

  /** The validators: a username of 3 to 30 characters, an e-mail, a bio of at
      most 500 characters, and a password exactly when there is no GitHub id. */
  predicate ValidUser(u: User)
  {
    && UsernameMin <= |u.username| <= UsernameMax
    && u.email != ""
    && (u.bio.Some? ==> |u.bio.value| <= BioMax)
    && (!Truthy(u.githubId) ==> Truthy(u.password))
  }

  /** A document can be stored without a password exactly when it carries a
      GitHub id. */
  lemma PasswordRequiredIff(u: User)
    requires UsernameMin <= |u.username| <= UsernameMax && u.email != ""
    requires u.bio.Some? ==> |u.bio.value| <= BioMax
    ensures ValidUser(u.(password := None)) <==> Truthy(u.githubId)
  {
  }

  /** The `followerCount` virtual. */
  function FollowerCount(u: User): nat
  {
    |u.followers|
  }

  /** The `followingCount` virtual. */
  function FollowingCount(u: User): nat
  {
    |u.following|
  }

  /** A new user with the schema defaults: empty avatar unless given, no
      skills, no followers, not verified. */
  function NewUser(username: string, email: string, password: Option<string>, bio: Option<string>,
                   skills: seq<string>): (u: User)
    ensures u.username == username && u.email == email && u.password == password
    ensures u.bio == bio && u.skills == skills && u.avatar == ""
    ensures u.githubId == None && u.followers == [] && u.following == [] && !u.isVerified
  {
    User(username, email, password, "", bio, skills, None, None, None, None, [], [], None, false)
  }

  /** `a` lists `b` under `following`. */
  predicate Follows(users: map<UserId, User>, a: UserId, b: UserId)
  {
    a in users && b in users[a].following
  }

  /** `b` lists `a` under `followers`. */
  predicate FollowedBy(users: map<UserId, User>, b: UserId, a: UserId)
  {
    b in users && a in users[b].followers
  }

  /** Every id in a follow list is a user, and A lists B under `following`
      exactly when B lists A under `followers`. */
  ghost predicate FollowGraph(users: map<UserId, User>)
  {
    && (forall a, b :: Follows(users, a, b) ==> b in users)
    && (forall b, a :: FollowedBy(users, b, a) ==> a in users)
    && (forall a, b :: Follows(users, a, b) <==> FollowedBy(users, b, a))
  }

  /** Every stored document passed its validators. */
  ghost predicate AllValid(users: map<UserId, User>)
  {
    forall id :: id in users ==> ValidUser(users[id])
  }

  /** The unique indexes on username and email. */
  ghost predicate UniqueKeys(users: map<UserId, User>)
  {
    forall a, b :: a in users && b in users && a != b ==>
      users[a].username != users[b].username && users[a].email != users[b].email
  }

  /** The User collection. */
  class Users {
    var users: map<UserId, User>

    ghost predicate Valid()
      reads this
    {
      && AllValid(users)
      && UniqueKeys(users)
      && FollowGraph(users)
    }

    constructor ()
      ensures Valid() && users == map[]
    {
      users := map[];
    }
  }

  /** Adding a valid user under a fresh id whose username and
      e-mail are not taken, and who follows nobody and has no followers, keeps
      the collection valid. */
  lemma InsertKeepsValid(users: map<UserId, User>, id: UserId, u: User)
    requires AllValid(users)
    requires UniqueKeys(users) && FollowGraph(users) && id !in users
    requires ValidUser(u) && u.followers == [] && u.following == []
    requires forall x :: x in users ==> users[x].username != u.username && users[x].email != u.email
    ensures AllValid(users[id := u]) && UniqueKeys(users[id := u]) && FollowGraph(users[id := u])
  {
    var after := users[id := u];
    assert forall a, b :: Follows(after, a, b) <==> Follows(users, a, b);
    assert forall b, a :: FollowedBy(after, b, a) <==> FollowedBy(users, b, a);
  }

  /** Replacing a stored document by a valid one with the same username,
      e-mail and follow lists keeps the collection valid. */
  lemma ReplaceKeepsValid(users: map<UserId, User>, id: UserId, v: User)
    requires AllValid(users) && UniqueKeys(users) && FollowGraph(users) && id in users
    requires ValidUser(v) && v.username == users[id].username && v.email == users[id].email
    requires v.followers == users[id].followers && v.following == users[id].following
    ensures AllValid(users[id := v]) && UniqueKeys(users[id := v]) && FollowGraph(users[id := v])
  {
    var after := users[id := v];
    assert forall a, b :: Follows(after, a, b) <==> Follows(users, a, b);
    assert forall b, a :: FollowedBy(after, b, a) <==> FollowedBy(users, b, a);
  }

  /** Changing only the follow lists of stored documents keeps them valid
      and keeps the unique keys. */
  lemma RelistKeepsKeys(users: map<UserId, User>, id: UserId, v: User)
    requires AllValid(users) && UniqueKeys(users) && id in users
    requires v == users[id].(followers := v.followers, following := v.following)
    ensures AllValid(users[id := v]) && UniqueKeys(users[id := v])
  {
  }
}
