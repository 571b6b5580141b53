/** The request gates of Server/src/middleware/auth.js. Token verification
    (`jwt.verify`) is a parameter mapping a token to the user id it carries,
    or None when verification throws; the user lookup reads the User
    collection. */
module AuthMiddleware {
  import opened Common
  import opened Text
  import opened UserModel

  const NotAuthorized := "Not authorized to access this route"

  /** The token of an `Authorization` header: only for a header starting
      with `Bearer`, the second space-separated field (absent when there is
      no space). */
  function ExtractToken(header: Option<string>): (t: Option<string>)
    ensures t.Some? ==> header.Some? && StartsWith(header.value, "Bearer") && ' ' in header.value
  {
    if header.Some? && header.value != "" && StartsWith(header.value, "Bearer") then
      var parts := Split(header.value, ' ');
      SplitPieces(header.value, ' ');
      if |parts| > 1 then Some(parts[1]) else None
    else None
  }

  /** The usual header `Bearer <token>` yields the token. */
  lemma ExtractBearer(token: string)
    requires ' ' !in token
    ensures ExtractToken(Some("Bearer " + token)) == Some(token)
  {
    var h := "Bearer " + token;
    assert h[..6] == "Bearer";
    assert h[6] == ' ';
    assert ' ' !in h[..6];
    SplitHead(h, ' ');
    assert h[7..] == token;
    SplitHead(token, ' ');
  }

  /** Any header that does not start with `Bearer` yields no token. */
  lemma NoBearerNoToken(header: string)
    requires !StartsWith(header, "Bearer")
    ensures ExtractToken(Some(header)).None?
  {
  }

  /** What a gate does with the request: answer it with an error, or call
      `next` with `req.user` set to the found user. */
  datatype Gate = Deny(status: nat, message: string) | Pass(user: UserId)

  /** `protect`: 401 without a (non-empty) token or when verification fails,
      401 "User not found" when the token's user does not exist; otherwise
      the request proceeds as that user. */
  function Protect(header: Option<string>, verify: string -> Option<UserId>, users: map<UserId, User>): (g: Gate)
    ensures !Truthy(ExtractToken(header)) ==> g == Deny(401, NotAuthorized)
    ensures g.Pass? <==>
      Truthy(ExtractToken(header)) && verify(ExtractToken(header).value).Some?
      && verify(ExtractToken(header).value).value in users
    ensures g.Pass? ==> g.user in users && verify(ExtractToken(header).value) == Some(g.user)
    ensures g.Deny? ==> g.status == 401
  {
    var token := ExtractToken(header);
    if !Truthy(token) then Deny(401, NotAuthorized)
    else match verify(token.value)
      case None => Deny(401, NotAuthorized)
      case Some(id) => if id in users then Pass(id) else Deny(401, "User not found")
  }

  /** What `optionalAuth` leaves in `req.user`; it always calls `next`. */
  datatype ReqUser = Untouched | NullUser | SetUser(id: UserId)

  /** `optionalAuth`: without a `Bearer` header `req.user` is left alone; with
      one it becomes the token's user, or null when there is no such user or
      the token does not verify (an absent token is passed to `jwt.verify`,
      which throws). */
  function OptionalAuth(header: Option<string>, verify: string -> Option<UserId>, users: map<UserId, User>): (u: ReqUser)
    ensures u.Untouched? <==> !(header.Some? && header.value != "" && StartsWith(header.value, "Bearer"))
    ensures u.SetUser? ==> u.id in users
  {
    if header.Some? && header.value != "" && StartsWith(header.value, "Bearer") then
      var token := ExtractToken(header);
      var decoded := if token.Some? then verify(token.value) else None;
      if decoded.Some? && decoded.value in users then SetUser(decoded.value) else NullUser
    else Untouched
  }

  /** Since `jwt.verify` rejects the empty token, the optional gate finds a
      user exactly when `protect` would let the request through as that user. */
  lemma OptionalAgreesWithProtect(header: Option<string>, verify: string -> Option<UserId>,
                                  users: map<UserId, User>, id: UserId)
    requires verify("") == None
    ensures OptionalAuth(header, verify, users) == SetUser(id) <==> Protect(header, verify, users) == Pass(id)
  {
  }
}
