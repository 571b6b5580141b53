/** The user endpoints of Server/src/controllers/userController.js: the
    profile read with its counts, the profile update, and the follow toggle
    that edits two documents at once. */
module UserController {
  import opened Common
  import opened Text
  import opened UserModel

  /** What GET /users/:username reports about a user. */
  datatype Profile = Profile(
    id: UserId,
    username: string,
    email: string,
    avatar: string,
    bio: Option<string>,
    skills: seq<string>,
    website: Option<string>,
    location: Option<string>,
    socialLinks: SocialLinks,
    followerCount: nat,
    followingCount: nat,
    followers: seq<UserId>,
    following: seq<UserId>)

  const NoLinks := SocialLinks(None, None, None)

  /** The profile of user `id`: its stored fields as they are, the counts
      the lengths of the two follow lists, and missing social links read as
      `{}`. */
  function ProfileOf(id: UserId, u: User): (p: Profile)
    ensures p.id == id && p.username == u.username && p.email == u.email && p.avatar == u.avatar
    ensures p.bio == u.bio && p.skills == u.skills && p.website == u.website && p.location == u.location
    ensures p.followerCount == FollowerCount(u) && p.followingCount == FollowingCount(u)
    ensures p.followers == u.followers && p.following == u.following
    ensures p.socialLinks == if u.socialLinks.Some? then u.socialLinks.value else NoLinks
  {
    Profile(id, u.username, u.email, u.avatar, u.bio, u.skills, u.website, u.location,
            if u.socialLinks.Some? then u.socialLinks.value else NoLinks,
            |u.followers|, |u.following|, u.followers, u.following)
  }

  /** GET /users/:username: 404 when no user has that (trimmed) username,
      otherwise that user's profile. */
  method GetUserProfile(db: Users, username: string) returns (r: Reply<Profile>)
    requires db.Valid()
    ensures (forall id :: id in db.users ==> db.users[id].username != Trim(username)) ==>
      r == Fail(404, "User not found")
    ensures forall id :: id in db.users && db.users[id].username == Trim(username) ==>
      r == Ok(200, ProfileOf(id, db.users[id]))
  {
    var name := Trim(username);
    if id :| id in db.users && db.users[id].username == name {
      return Ok(200, ProfileOf(id, db.users[id]));
    }
    return Fail(404, "User not found");
  }

  /** PUT /users/profile: a `socialLinks` text that does not parse is a 500;
      an unknown requester gets a null user; otherwise bio, website and
      location change only when supplied, skills become the trimmed comma
      list ([] when absent) and social links the parsed object ({} when
      absent), provided the bio still passes its 500-character bound. */
  method UpdateProfile(db: Users, me: UserId, bio: Option<string>, skills: Option<string>,
                       website: Option<string>, location: Option<string>,
                       socialLinks: Option<string>, parsedLinks: Option<SocialLinks>)
    returns (r: Reply<Option<User>>)
    requires db.Valid()
    modifies db
    ensures db.Valid()
    ensures Truthy(socialLinks) && parsedLinks.None? ==> r.Fail? && r.status == 500 && db.users == old(db.users)
    ensures !(Truthy(socialLinks) && parsedLinks.None?) && me !in old(db.users) ==>
      r == Ok(200, None) && db.users == old(db.users)
    ensures !(Truthy(socialLinks) && parsedLinks.None?) && me in old(db.users) ==>
      var u := old(db.users[me]);
      var v := u.(bio := if bio.Some? then bio else u.bio,
                  skills := TrimAll(CommaList(skills)),
                  website := if website.Some? then website else u.website,
                  location := if location.Some? then location else u.location,
                  socialLinks := Some(if Truthy(socialLinks) then parsedLinks.value else NoLinks));
      if ValidUser(v) then r == Ok(200, Some(v)) && db.users == old(db.users)[me := v]
      else r.Fail? && r.status == 500 && db.users == old(db.users)
  {
    if Truthy(socialLinks) && parsedLinks.None? {
      return Fail(500, "Unexpected token in JSON");
    }
    if me !in db.users {
      return Ok(200, None);
    }
    var u := db.users[me];
    var v := u.(bio := if bio.Some? then bio else u.bio,
                skills := TrimAll(CommaList(skills)),
                website := if website.Some? then website else u.website,
                location := if location.Some? then location else u.location,
                socialLinks := Some(if Truthy(socialLinks) then parsedLinks.value else NoLinks));
    if !ValidUser(v) {
      return Fail(500, "Validation failed: bio");
    }
    ReplaceKeepsValid(db.users, me, v);
    db.users := db.users[me := v];
    r := Ok(200, Some(v));
  }

  /** The two documents after `me` toggles following `target`: on unfollow
      every entry for the other user is filtered out of both lists, on follow
      one entry is pushed onto each. */
  function AfterToggle(users: map<UserId, User>, me: UserId, target: UserId): (after: map<UserId, User>)
    requires me in users && target in users && me != target
    ensures after.Keys == users.Keys
    ensures forall id :: id in users && id != me && id != target ==> after[id] == users[id]
    ensures after[me] == users[me].(following := after[me].following)
    ensures after[target] == users[target].(followers := after[target].followers)
  {
    var cur := users[me];
    var tgt := users[target];
    if target in cur.following then
      users[me := cur.(following := RemoveAll(cur.following, target))]
           [target := tgt.(followers := RemoveAll(tgt.followers, me))]
    else
      users[me := cur.(following := cur.following + [target])]
           [target := tgt.(followers := tgt.followers + [me])]
  }

  /** The toggle flips whether `me` follows `target`, leaves every other
      follow relation as it was, changes no other field, and keeps the follow
      lists closed and mutually consistent. */
  lemma ToggleSpec(users: map<UserId, User>, me: UserId, target: UserId)
    requires me in users && target in users && me != target
    ensures var after := AfterToggle(users, me, target);
      && after.Keys == users.Keys
      && (Follows(after, me, target) <==> !Follows(users, me, target))
      && (forall a, b :: a != me || b != target ==> (Follows(after, a, b) <==> Follows(users, a, b)))
      && (forall id :: id in users ==>
            after[id] == users[id].(followers := after[id].followers, following := after[id].following))
    ensures FollowGraph(users) ==> FollowGraph(AfterToggle(users, me, target))
  {
    ToggleFrame(users, me, target);
    if FollowGraph(users) {
      ToggleKeepsGraph(users, me, target);
    }
  }

  /** The toggle flips both directions of the one relation and keeps every
      other follow relation. */
  lemma ToggleFrame(users: map<UserId, User>, me: UserId, target: UserId)
    requires me in users && target in users && me != target
    ensures var after := AfterToggle(users, me, target);
      && after.Keys == users.Keys
      && (Follows(after, me, target) <==> !Follows(users, me, target))
      && (FollowedBy(after, target, me) <==> target !in users[me].following)
      && (forall a, b :: a != me || b != target ==> (Follows(after, a, b) <==> Follows(users, a, b)))
      && (forall b, a :: b != target || a != me ==> (FollowedBy(after, b, a) <==> FollowedBy(users, b, a)))
      && (forall id :: id in users ==>
            after[id] == users[id].(followers := after[id].followers, following := after[id].following))
  {
    var after := AfterToggle(users, me, target);
    var cur := users[me];
    var tgt := users[target];
    assert after[me].followers == cur.followers && after[target].following == tgt.following;
    assert forall a :: a in users && a != me && a != target ==> after[a] == users[a];
    forall a, b | a != me || b != target
      ensures Follows(after, a, b) <==> Follows(users, a, b)
    {
      if a == me {
        assert b in after[me].following <==> b in cur.following;
      }
    }
    forall b, a | b != target || a != me
      ensures FollowedBy(after, b, a) <==> FollowedBy(users, b, a)
    {
      if b == target {
        assert a in after[target].followers <==> a in tgt.followers;
      }
    }
  }

  /** With a consistent follow graph, the toggle keeps it consistent and
      closed. */
  lemma ToggleKeepsGraph(users: map<UserId, User>, me: UserId, target: UserId)
    requires me in users && target in users && me != target
    requires FollowGraph(users)
    ensures FollowGraph(AfterToggle(users, me, target))
  {
    ToggleFrame(users, me, target);
    var after := AfterToggle(users, me, target);
    assert Follows(users, me, target) <==> FollowedBy(users, target, me);
    assert Follows(after, me, target) <==> FollowedBy(after, target, me);
    forall a, b | Follows(after, a, b) ensures b in users {
      if a == me && b != target {
        assert Follows(users, a, b);
      }
    }
    forall b, a | FollowedBy(after, b, a) ensures a in users {
      if b == target && a != me {
        assert FollowedBy(users, b, a);
      }
    }
  }

  /** With a consistent follow graph, following raises the target's
      `followerCount` and the requester's `followingCount` by exactly one,
      and unfollowing lowers both. */
  lemma ToggleCounts(users: map<UserId, User>, me: UserId, target: UserId)
    requires me in users && target in users && me != target
    requires FollowGraph(users)
    ensures var after := AfterToggle(users, me, target);
      && (!Follows(users, me, target) ==>
            && FollowerCount(after[target]) == FollowerCount(users[target]) + 1
            && FollowingCount(after[me]) == FollowingCount(users[me]) + 1)
      && (Follows(users, me, target) ==>
            && FollowerCount(after[target]) < FollowerCount(users[target])
            && FollowingCount(after[me]) < FollowingCount(users[me]))
  {
    if Follows(users, me, target) {
      assert FollowedBy(users, target, me);
      assert Count(users[target].followers, me) > 0;
      assert Count(users[me].following, target) > 0;
    }
  }

  /** Toggling twice restores whether `me` follows `target`. */
  lemma ToggleTwice(users: map<UserId, User>, me: UserId, target: UserId)
    requires me in users && target in users && me != target
    ensures var once := AfterToggle(users, me, target);
      me in once && target in once
      && (Follows(AfterToggle(once, me, target), me, target) <==> Follows(users, me, target))
  {
    ToggleSpec(users, me, target);
    ToggleSpec(AfterToggle(users, me, target), me, target);
  }

  datatype FollowState = FollowState(isFollowing: bool, followerCount: nat)

  /** POST /users/:userId/follow: 400 for following oneself and 404 for an
      unknown target, changing nothing; a requester who is not a user makes
      `currentUser.following` throw (500). Otherwise the follow is toggled in
      both documents and the reply gives the new state and the target's
      follower count. */
  method ToggleFollow(db: Users, me: UserId, target: UserId) returns (r: Reply<FollowState>)
    requires db.Valid()
    modifies db
    ensures db.Valid()
    ensures target == me ==> r == Fail(400, "You cannot follow yourself") && db.users == old(db.users)
    ensures target != me && target !in old(db.users) ==>
      r == Fail(404, "User not found") && db.users == old(db.users)
    ensures target != me && target in old(db.users) && me !in old(db.users) ==>
      r.Fail? && r.status == 500 && db.users == old(db.users)
    ensures target != me && target in old(db.users) && me in old(db.users) ==>
      && db.users == AfterToggle(old(db.users), me, target)
      && r == Ok(200, FollowState(!Follows(old(db.users), me, target), |db.users[target].followers|))
  {
    if target == me {
      return Fail(400, "You cannot follow yourself");
    }
    if target !in db.users {
      return Fail(404, "User not found");
    }
    if me !in db.users {
      return Fail(500, "Cannot read properties of null (reading 'following')");
    }
    var cur := db.users[me];
    var tgt := db.users[target];
    var isFollowing := target in cur.following;
    if isFollowing {
      cur := cur.(following := RemoveAll(cur.following, target));
      tgt := tgt.(followers := RemoveAll(tgt.followers, me));
    } else {
      cur := cur.(following := cur.following + [target]);
      tgt := tgt.(followers := tgt.followers + [me]);
    }
    ToggleSpec(db.users, me, target);
    RelistKeepsKeys(db.users, me, cur);
    RelistKeepsKeys(db.users[me := cur], target, tgt);
    db.users := db.users[me := cur][target := tgt];
    r := Ok(200, FollowState(!isFollowing, |tgt.followers|));
  }
}
