/**
  Facts that join the browser and the server: the header apiFetch builds is the
  one the authenticate middleware reads, the server's error messages reach the
  page unchanged, and the shorts like button talks past the server's reactions.
 */
module EndToEnd {
  import opened Js
  import Server
  import Store
  import ClientApi
  import Shorts

  /** The Authorization header apiFetch sends for a stored token carries that same token to the server. */
  lemma ClientTokenReachesServer(headers: map<string, string>, token: string, body: ClientApi.Body)
    requires token != ""
    ensures var sent := ClientApi.Decorated(headers, Some(token), body);
      ClientApi.AuthorizationHeader in sent && Server.ExtractToken(sent[ClientApi.AuthorizationHeader]) == token
  {
    Server.ExtractBearer(token);
  }

  /**
    A page holding the (non-empty) token of a session is let through as that
    session's user, and a page holding any other token is refused with 401.
   */
  lemma StoredSessionAuthenticates(db: Store.Database, headers: map<string, string>, token: string, body: ClientApi.Body)
    requires token != ""
    ensures var sent := ClientApi.Decorated(headers, Some(token), body);
      ClientApi.AuthorizationHeader in sent
      && db.Authenticate(Some(sent[ClientApi.AuthorizationHeader]))
         == (if token in db.sessions then Store.Ok(db.sessions[token]) else Store.Fail(401, Store.InvalidToken))
  {
    ClientTokenReachesServer(headers, token, body);
  }

  /**
    Logging in with a filled-in username and password that match no user: the
    server answers 401 "Неверные данные" and opens no session, and the login
    path's 401 is not taken for an expired session, so apiFetch rejects with
    that same text.
   */
  method WrongCredentialsReachPage(db: Store.Database, username: string, password: string,
                                   matches: (string, string) -> bool, token: string)
    returns (reply: Store.Response<Store.AuthReply>, outcome: ClientApi.Outcome)
    requires db.Valid() && token !in db.sessions
    requires Trim(username) != "" && Trim(password) != ""
    requires !db.CredentialsMatch(Trim(username), Trim(password), matches)
    modifies db
    ensures reply == Store.Fail(401, Store.WrongCredentials)
    ensures db.sessions == old(db.sessions)
    ensures outcome == ClientApi.Rejected(Store.WrongCredentials)
  {
    assert Store.Field(Some(username)) == Trim(username) && Store.Field(Some(password)) == Trim(password);
    reply := db.Login(Some(username), Some(password), matches, token);
    outcome := ClientApi.Settle(ClientApi.LoginPath,
      ClientApi.Received(ClientApi.HttpResponse(reply.status, ClientApi.ErrorField(Some(reply.error)))));
    ClientApi.LoginErrorReachesCaller(Store.WrongCredentials);
  }

  /**
    Registering a username that is already taken: the server answers 409 with
    "Логин занят" and changes nothing, and the register form's apiFetch rejects
    with that same text.
   */
  method TakenUsernameReachesPage(db: Store.Database, name: string, username: string, password: string,
                                  hash: string -> string, id: Store.Id, token: string, now: int)
    returns (reply: Store.Response<Store.AuthReply>, outcome: ClientApi.Outcome)
    requires db.Valid() && id !in db.users && token !in db.sessions
    requires Trim(name) != "" && Trim(username) != "" && Trim(password) != ""
    requires db.UsernameTaken(Trim(username))
    modifies db
    ensures reply == Store.Fail(409, Store.LoginTaken)
    ensures db.users == old(db.users) && db.sessions == old(db.sessions)
    ensures outcome == ClientApi.Rejected(ClientApi.LoginTakenMessage)
  {
    assert Store.Field(Some(name)) == Trim(name) && Store.Field(Some(username)) == Trim(username);
    assert Store.Field(Some(password)) == Trim(password);
    reply := db.Register(Some(name), Some(username), Some(password), hash, id, token, now);
    outcome := ClientApi.Settle(ClientApi.RegisterPath,
      ClientApi.Received(ClientApi.HttpResponse(reply.status, ClientApi.ErrorField(Some(reply.error)))));
  }

  /**
    Two taps on a short's like button, both reaching the server. Every tap asks
    for 'like', so the page shows the button flipped after the first tap and
    back as it was after the second, while the server holds the like throughout;
    a like the user already had is never taken off the count.
   */
  method TwoTapsOnShortLike(item: Shorts.ShortItem, db: Store.Database, userId: Store.Id, videoId: Store.Id,
                            first: ClientApi.Outcome, second: ClientApi.Outcome)
    returns (activeBetween: bool, likedBetween: bool)
    requires !first.Rejected? && !second.Rejected?
    modifies item, db
    ensures activeBetween == !old(item.likeActive) && likedBetween
    ensures item.likeActive == old(item.likeActive)
    ensures db.likes == Store.SetReaction(old(db.likes), userId, videoId, Some("like"))
    ensures Store.Liked(db.likes, userId, videoId)
    ensures old(Store.Liked(db.likes, userId, videoId)) ==>
      Store.LikeCount(db.likes, videoId) == old(Store.LikeCount(db.likes, videoId))
  {
    var kind := item.ToggleLike(first);
    var firstReply := db.React(userId, Some(videoId), Some(kind));
    activeBetween := item.likeActive;
    likedBetween := Store.Liked(db.likes, userId, videoId);
    kind := item.ToggleLike(second);
    var secondReply := db.React(userId, Some(videoId), Some(kind));
    Store.ReactionIdempotent(old(db.likes), userId, videoId, Some("like"));
    Store.ReactionCount(old(db.likes), userId, videoId, Some("like"));
  }

  /** The like counter a short shows after loading details is the server's count of 'like' rows. */
  lemma ShownLikesAreServerCount(db: Store.Database, userId: Store.Id, videoId: Store.Id)
    ensures Shorts.FromServer(db.Details(userId, videoId)).Likes() == Store.LikeCount(db.likes, videoId)
  {
  }
}
