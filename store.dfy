/**
  The relational state behind server.js and the request handlers that change or
  read it: authentication by session token, registration and login, subscription
  toggling, reactions, comments, video deletion and the per-video details.
  Each table is a map or a set; a handler is a method of the database.
 */
module Store {
  import opened Js
  import Server

  type Id = string

  /** A row of `users`; avatarPath may be NULL, theme defaults to 'neon-blue'. */
  datatype User = User(name: string, username: string, passwordHash: string, avatarPath: Option<string>, theme: string, createdAt: int)

  /** A row of `channels`. */
  datatype Channel = Channel(ownerUserId: Id, channelName: string, channelTag: string)

  /** A row of `videos`. */
  datatype Video = Video(ownerChannelId: Id, title: string, filename: string, thumbnailPath: Option<string>, isShort: int)

  /** A row of `comments`, in insertion order. */
  datatype CommentRow = CommentRow(id: Id, videoId: Id, userId: Id, text: string, createdAt: int)

  /** `likes` is keyed by (userId, videoId); its type column may be NULL (None). */
  type Likes = map<(Id, Id), Option<string>>

  /** `subscriptions` is keyed by (subscriberUserId, targetChannelId). */
  type Subscriptions = set<(Id, Id)>

  /** A JSON reply: the value sent with 200, or a status with an `error` message. */
  datatype Response<T> = Ok(value: T) | Fail(status: int, error: string)

  /** The user object sent back by register and login. */
  datatype UserView = UserView(id: Id, name: string, username: string, avatarPath: string, theme: string)

  datatype AuthReply = AuthReply(token: string, user: UserView)

  /** One comment as GET /api/videos/:id/details lists it, joined with its author. */
  datatype CommentView = CommentView(id: Id, text: string, createdAt: int, username: string, name: string)

  /** The body of GET /api/videos/:id/details. */
  datatype VideoDetails = VideoDetails(likes: nat, userReaction: Option<string>, comments: seq<CommentView>, isSubscribed: bool, subscribersCount: nat)

  const DefaultTheme := "neon-blue"
  const InvalidToken := "Недействительный токен"
  const FillAllFields := "Заполните все поля"
  const LoginTaken := "Логин занят"
  const FillLoginAndPassword := "Заполните логин и пароль"
  const WrongCredentials := "Неверные данные"
  const NoChannelId := "Нет channelId"
  const NotFoundError := "Не найдено"
  const NotYourVideo := "Не ваше видео"
  const NoData := "Нет данных"

  // ---------------------------------------------------------------------------
  // Registration and login input

  /** `String(v || '').trim()` */
  function Field(v: Option<string>): (f: string)
    ensures v.None? ==> f == ""
    ensures |f| <= |OrEmpty(v)|
    ensures f == [] || (!IsSpace(f[0]) && !IsSpace(f[|f| - 1]))
  {
    Trim(OrEmpty(v))
  }

  /** A field is empty after trimming exactly when it is absent, empty or made of whitespace only. */
  lemma BlankField(v: Option<string>)
    ensures Field(v) == "" <==> !Truthy(v) || AllSpace(v.value)
  {
    TrimEmptyIff(OrEmpty(v));
  }

  /** A non-blank field is stored without surrounding whitespace: trimming it again changes nothing. */
  lemma FieldIsTrimmed(v: Option<string>)
    ensures Trim(Field(v)) == Field(v)
    ensures Field(v) != "" ==> !IsSpace(Field(v)[0]) && !IsSpace(Field(v)[|Field(v)| - 1])
  {
    TrimIdempotent(OrEmpty(v));
  }

  // ---------------------------------------------------------------------------
  // Subscriptions

  /** Membership of x flipped, everything else kept. */
  function Toggle<T>(s: set<T>, x: T): (r: set<T>)
    ensures x in r <==> x !in s
    ensures r - {x} == s - {x}
  {
    if x in s then s - {x} else s + {x}
  }

  /** Toggling twice restores the original set. */
  lemma ToggleTwice<T>(s: set<T>, x: T)
    ensures Toggle(Toggle(s, x), x) == s
  {
  }

  /** The subscribers of a channel. */
  function Subscribers(subs: Subscriptions, channelId: Id): (n: nat)
    ensures n > 0 <==> exists u :: (u, channelId) in subs
    ensures n <= |subs|
  {
    SubscriberRowsWitness(subs, channelId);
    SubsetCardinality(SubscriberRows(subs, channelId), subs);
    |SubscriberRows(subs, channelId)|
  }

  /** The subscription rows that target a channel. */
  function SubscriberRows(subs: Subscriptions, channelId: Id): set<(Id, Id)>
  {
    set p | p in subs && p.1 == channelId
  }

  /** A channel has subscription rows exactly when some user subscribes to it. */
  lemma SubscriberRowsWitness(subs: Subscriptions, channelId: Id)
    ensures SubscriberRows(subs, channelId) != {} <==> exists u :: (u, channelId) in subs
  {
    if SubscriberRows(subs, channelId) != {} {
      var p :| p in SubscriberRows(subs, channelId);
      assert (p.0, channelId) in subs;
    }
    if exists u :: (u, channelId) in subs {
      var u :| (u, channelId) in subs;
      assert (u, channelId) in SubscriberRows(subs, channelId);
    }
  }

  /** A toggle changes the subscriber count of that channel by exactly one, in the direction of the new state. */
  lemma ToggleCount(subs: Subscriptions, userId: Id, channelId: Id)
    ensures (userId, channelId) in subs ==> Subscribers(Toggle(subs, (userId, channelId)), channelId) + 1 == Subscribers(subs, channelId)
    ensures (userId, channelId) !in subs ==> Subscribers(Toggle(subs, (userId, channelId)), channelId) == Subscribers(subs, channelId) + 1
  {
    var x := (userId, channelId);
    SubscriberRowsToggle(subs, userId, channelId);
    assert Subscribers(subs, channelId) == |SubscriberRows(subs, channelId)|;
    assert Subscribers(Toggle(subs, x), channelId) == |SubscriberRows(Toggle(subs, x), channelId)|;
  }

  /** Toggling a subscription to a channel adds or removes exactly that row among the channel's rows. */
  lemma SubscriberRowsToggle(subs: Subscriptions, userId: Id, channelId: Id)
    ensures (userId, channelId) in subs ==>
      SubscriberRows(Toggle(subs, (userId, channelId)), channelId) == SubscriberRows(subs, channelId) - {(userId, channelId)}
    ensures (userId, channelId) !in subs ==>
      SubscriberRows(Toggle(subs, (userId, channelId)), channelId) == SubscriberRows(subs, channelId) + {(userId, channelId)}
  {
  }

  // ---------------------------------------------------------------------------
  // Likes

  /** The likes table after DELETE of the (user, video) row and, unless the type is 'none', INSERT of the new one. */
  function SetReaction(likes: Likes, userId: Id, videoId: Id, kind: Option<string>): (r: Likes)
    ensures (userId, videoId) in r <==> kind != Some("none")
    ensures (userId, videoId) in r ==> r[(userId, videoId)] == kind
    ensures forall k :: k in likes && k != (userId, videoId) ==> k in r && r[k] == likes[k]
    ensures forall k :: k in r && k != (userId, videoId) ==> k in likes
  {
    var cleared := likes - {(userId, videoId)};
    if kind != Some("none") then cleared[(userId, videoId) := kind] else cleared
  }

  /** The (user, video) rows of a video whose type is 'like'. */
  function LikeRows(likes: Likes, videoId: Id): set<(Id, Id)>
  {
    set k | k in likes && k.1 == videoId && likes[k] == Some("like")
  }

  /** `SELECT count(*) FROM likes WHERE videoId = ? AND type = 'like'` */
  function LikeCount(likes: Likes, videoId: Id): (n: nat)
    ensures n > 0 <==> exists u :: Liked(likes, u, videoId)
    ensures n <= |likes|
  {
    LikeRowsWitness(likes, videoId);
    SubsetCardinality(LikeRows(likes, videoId), likes.Keys);
    |LikeRows(likes, videoId)|
  }

  /** A video has 'like' rows exactly when some user liked it. */
  lemma LikeRowsWitness(likes: Likes, videoId: Id)
    ensures LikeRows(likes, videoId) != {} <==> exists u :: Liked(likes, u, videoId)
  {
    if LikeRows(likes, videoId) != {} {
      var k :| k in LikeRows(likes, videoId);
      assert Liked(likes, k.0, videoId);
    }
    if exists u :: Liked(likes, u, videoId) {
      var u :| Liked(likes, u, videoId);
      assert (u, videoId) in LikeRows(likes, videoId);
    }
  }

  /** A subset is no larger than the set that holds it. */
  lemma {:induction false} SubsetCardinality<T>(a: set<T>, b: set<T>)
    requires a <= b
    ensures |a| <= |b|
    decreases |a|
  {
    if a != {} {
      var x :| x in a;
      SubsetCardinality(a - {x}, b - {x});
    }
  }

  /** Whether the (user, video) row says 'like'. */
  predicate Liked(likes: Likes, userId: Id, videoId: Id)
  {
    (userId, videoId) in likes && likes[(userId, videoId)] == Some("like")
  }

  /** Removing one element from a set lowers its size by one exactly when the element was there. */
  lemma CardinalityWithout<T>(s: set<T>, x: T)
    ensures |s| == |s - {x}| + (if x in s then 1 else 0)
  {
    if x in s {
      assert s == (s - {x}) + {x};
    } else {
      assert s - {x} == s;
    }
  }

  /** Two tables that agree on every row but x have the same like rows but x. */
  lemma LikeRowsBesides(a: Likes, b: Likes, videoId: Id, x: (Id, Id))
    requires forall k :: k in a && k != x ==> k in b && b[k] == a[k]
    requires forall k :: k in b && k != x ==> k in a
    ensures LikeRows(a, videoId) - {x} == LikeRows(b, videoId) - {x}
  {
  }

  /** A reaction moves the like count of its video by at most one: the old row's like goes, the new row's like comes. */
  lemma ReactionCount(likes: Likes, userId: Id, videoId: Id, kind: Option<string>)
    ensures LikeCount(SetReaction(likes, userId, videoId, kind), videoId)
      == LikeCount(likes, videoId) - (if Liked(likes, userId, videoId) then 1 else 0) + (if kind == Some("like") then 1 else 0)
  {
    var r := SetReaction(likes, userId, videoId, kind);
    var x := (userId, videoId);
    LikeRowsBesides(r, likes, videoId, x);
    CardinalityWithout(LikeRows(r, videoId), x);
    CardinalityWithout(LikeRows(likes, videoId), x);
    assert x in LikeRows(r, videoId) <==> kind == Some("like");
    assert x in LikeRows(likes, videoId) <==> Liked(likes, userId, videoId);
  }

  /** A reaction to one video leaves every other video's like count alone. */
  lemma ReactionCountElsewhere(likes: Likes, userId: Id, videoId: Id, kind: Option<string>, other: Id)
    requires other != videoId
    ensures LikeCount(SetReaction(likes, userId, videoId, kind), other) == LikeCount(likes, other)
  {
    assert LikeRows(SetReaction(likes, userId, videoId, kind), other) == LikeRows(likes, other);
  }

  /** Sending the same reaction twice leaves the table as one request did: at most one row per user and video. */
  lemma ReactionIdempotent(likes: Likes, userId: Id, videoId: Id, kind: Option<string>)
    ensures SetReaction(SetReaction(likes, userId, videoId, kind), userId, videoId, kind) == SetReaction(likes, userId, videoId, kind)
  {
  }

  // ---------------------------------------------------------------------------
  // Comments

  /** The texts of the comments, in the order given: what a client lists for them. */
  function CommentTexts(cs: seq<CommentView>): (texts: seq<string>)
    ensures |texts| == |cs|
    ensures forall k :: 0 <= k < |cs| ==> texts[k] == cs[k].text
  {
    seq(|cs|, k requires 0 <= k < |cs| => cs[k].text)
  }

  /** The comments of a video whose author still exists, joined with that author, in table order. */
  function CommentViews(rows: seq<CommentRow>, users: map<Id, User>, videoId: Id): (r: seq<CommentView>)
    ensures |r| <= |rows|
    ensures forall c :: c in r ==> exists row :: row in rows && row.videoId == videoId && row.userId in users && c.id == row.id && c.text == row.text
  {
    if rows == [] then []
    else
      var row := rows[0];
      var rest := CommentViews(rows[1..], users, videoId);
      if row.videoId == videoId && row.userId in users then
        [CommentView(row.id, row.text, row.createdAt, users[row.userId].username, users[row.userId].name)] + rest
      else rest
  }

  /** Newest first, `ORDER BY c.createdAt DESC`: no comment is older than the one after it. */
  predicate NewestFirst(cs: seq<CommentView>)
  {
    forall i :: 0 <= i < |cs| - 1 ==> cs[i].createdAt >= cs[i + 1].createdAt
  }

  /** In a list that is newest first, every comment is at least as new as every later one. */
  lemma {:induction false} NewestFirstPairwise(cs: seq<CommentView>, i: nat, j: nat)
    requires NewestFirst(cs) && i <= j < |cs|
    ensures cs[i].createdAt >= cs[j].createdAt
    decreases j - i
  {
    if i < j {
      NewestFirstPairwise(cs, i + 1, j);
    }
  }

  /** Puts c before the first comment that is strictly older. */
  function InsertByDate(c: CommentView, cs: seq<CommentView>): (r: seq<CommentView>)
    requires NewestFirst(cs)
    ensures |r| == |cs| + 1
    ensures r[0] == c || (cs != [] && r[0] == cs[0])
    ensures NewestFirst(r)
    ensures multiset(r) == multiset(cs) + multiset{c}
  {
    if cs == [] || cs[0].createdAt <= c.createdAt then
      [c] + cs
    else
      var rest := InsertByDate(c, cs[1..]);
      assert cs == [cs[0]] + cs[1..];
      [cs[0]] + rest
  }

  /** The comments reordered newest first, none added and none lost. */
  function SortNewestFirst(cs: seq<CommentView>): (r: seq<CommentView>)
    ensures NewestFirst(r)
    ensures multiset(r) == multiset(cs)
  {
    if cs == [] then []
    else
      assert cs == [cs[0]] + cs[1..];
      InsertByDate(cs[0], SortNewestFirst(cs[1..]))
  }

  /** The comment table without the rows of one video. */
  function DropComments(rows: seq<CommentRow>, videoId: Id): (r: seq<CommentRow>)
    ensures forall row :: row in r <==> row in rows && row.videoId != videoId
  {
    if rows == [] then []
    else if rows[0].videoId == videoId then DropComments(rows[1..], videoId)
    else [rows[0]] + DropComments(rows[1..], videoId)
  }

  /** The likes table without the rows of one video. */
  function DropLikes(likes: Likes, videoId: Id): (r: Likes)
    ensures forall k :: k in r <==> k in likes && k.1 != videoId
    ensures forall k :: k in r ==> r[k] == likes[k]
  {
    map k | k in likes && k.1 != videoId :: likes[k]
  }

  /** After the cascade a video has no likes and no comments left, whatever the users table holds. */
  lemma {:induction false} CascadeLeavesNothing(likes: Likes, rows: seq<CommentRow>, users: map<Id, User>, videoId: Id)
    ensures LikeCount(DropLikes(likes, videoId), videoId) == 0
    ensures CommentViews(DropComments(rows, videoId), users, videoId) == []
  {
    assert LikeRows(DropLikes(likes, videoId), videoId) == {};
    NoCommentsLeft(DropComments(rows, videoId), users, videoId);
  }

  lemma {:induction false} NoCommentsLeft(rows: seq<CommentRow>, users: map<Id, User>, videoId: Id)
    requires forall row :: row in rows ==> row.videoId != videoId
    ensures CommentViews(rows, users, videoId) == []
    decreases |rows|
  {
    if rows != [] {
      assert rows[0] in rows;
      NoCommentsLeft(rows[1..], users, videoId);
    }
  }

  /** The row INSERTed by registration: the placeholder avatar and the default theme. */
  function NewUser(name: string, username: string, passwordHash: string, now: int): (u: User)
    ensures u.passwordHash == passwordHash && u.createdAt == now
    ensures forall id :: ViewOf(id, u) == UserView(id, name, username, Server.PlaceholderAvatar, DefaultTheme)
  {
    User(name, username, passwordHash, Some(Server.PlaceholderAvatar), DefaultTheme, now)
  }

  /** The user object of an auth reply: the placeholder stands in for an empty avatar. */
  function ViewOf(id: Id, u: User): (v: UserView)
    ensures v.id == id && v.name == u.name && v.username == u.username && v.theme == u.theme
    ensures v.avatarPath != ""
    ensures Truthy(u.avatarPath) ==> v.avatarPath == u.avatarPath.value
  {
    UserView(id, u.name, u.username, if Truthy(u.avatarPath) then u.avatarPath.value else Server.PlaceholderAvatar, u.theme)
  }

  // ---------------------------------------------------------------------------
  // The database

  class Database {
    var users: map<Id, User>
    var sessions: map<string, Id>
    var channels: map<Id, Channel>
    var videos: map<Id, Video>
    var likes: Likes
    var comments: seq<CommentRow>
    var subscriptions: Subscriptions

    /** The UNIQUE constraint on users.username. */
    ghost predicate Valid()
      reads this`users
    {
      forall a, b :: a in users && b in users && users[a].username == users[b].username ==> a == b
    }

    predicate UsernameTaken(username: string)
      reads this`users
    {
      exists id :: id in users && users[id].username == username
    }

    constructor ()
      ensures Valid()
      ensures users == map[] && sessions == map[] && channels == map[] && videos == map[]
      ensures likes == map[] && comments == [] && subscriptions == {}
    {
      users, sessions, channels, videos := map[], map[], map[], map[];
      likes, comments, subscriptions := map[], [], {};
    }

    /**
      The authenticate middleware: no Authorization header, or a token (the header
      without a leading "Bearer ") that has no session, is refused with 401;
      otherwise the request carries the session's user.
     */
    function Authenticate(authorization: Option<string>): (r: Response<Id>)
      reads this`sessions
      ensures r.Fail? ==> r.status == 401 && r.error == InvalidToken
      ensures r.Ok? <==> Truthy(authorization) && Server.ExtractToken(authorization.value) in sessions
      ensures r.Ok? ==> r.value == sessions[Server.ExtractToken(authorization.value)]
    {
      if !Truthy(authorization) then Fail(401, InvalidToken)
      else
        var token := Server.ExtractToken(authorization.value);
        if token in sessions then Ok(sessions[token]) else Fail(401, InvalidToken)
    }

    /** Whether some user has this username and a password hash that `matches` accepts for the password. */
    predicate CredentialsMatch(username: string, password: string, matches: (string, string) -> bool)
      reads this`users
    {
      exists id :: id in users && users[id].username == username && matches(password, users[id].passwordHash)
    }

    /**
      POST /api/auth/register. The id and the token are fresh uuids and `hash` is
      what bcrypt makes of the trimmed password.
     */
    method Register(name: Option<string>, username: Option<string>, password: Option<string>,
                    hash: string -> string, id: Id, token: string, now: int) returns (r: Response<AuthReply>)
      requires Valid()
      requires id !in users && token !in sessions
      modifies this`users, this`sessions
      ensures Valid()
      ensures r.Fail? ==> users == old(users) && sessions == old(sessions)
      ensures r.Fail? && r.status == 400 <==> Field(name) == "" || Field(username) == "" || Field(password) == ""
      ensures r.Fail? && r.status == 409 <==>
        Field(name) != "" && Field(username) != "" && Field(password) != "" && old(UsernameTaken(Field(username)))
      ensures r.Fail? ==> r.status == 400 || r.status == 409
      ensures r.Fail? ==> r.error == (if r.status == 400 then FillAllFields else LoginTaken)
      ensures r.Ok? ==>
        && users == old(users)[id := NewUser(Field(name), Field(username), hash(Field(password)), now)]
        && sessions == old(sessions)[token := id]
        && r.value == AuthReply(token, ViewOf(id, users[id]))
    {
      var n, u, p := Field(name), Field(username), Field(password);
      if n == "" || u == "" || p == "" {
        return Fail(400, FillAllFields);
      }
      if UsernameTaken(u) {
        return Fail(409, LoginTaken);
      }
      var user := NewUser(n, u, hash(p), now);
      ghost var before := users;
      users := users[id := user];
      forall a, b | a in users && b in users && users[a].username == users[b].username
        ensures a == b
      {
        if a != id && b != id {
          assert before[a] == users[a] && before[b] == users[b];
        }
      }
      sessions := sessions[token := id];
      r := Ok(AuthReply(token, UserView(id, n, u, Server.PlaceholderAvatar, DefaultTheme)));
    }

    /**
      POST /api/auth/login: the trimmed username must name a user whose hash
      `matches` (bcrypt.compare) the trimmed password; a new session is opened.
     */
    method Login(username: Option<string>, password: Option<string>, matches: (string, string) -> bool,
                 token: string) returns (r: Response<AuthReply>)
      requires Valid()
      requires token !in sessions
      modifies this`sessions
      ensures r.Fail? ==> sessions == old(sessions)
      ensures r.Fail? && r.status == 400 <==> Field(username) == "" || Field(password) == ""
      ensures r.Fail? ==> (r.status == 400 && r.error == FillLoginAndPassword) || (r.status == 401 && r.error == WrongCredentials)
      ensures r.Ok? ==> CredentialsMatch(Field(username), Field(password), matches)
      ensures Field(username) != "" && Field(password) != "" && CredentialsMatch(Field(username), Field(password), matches) ==> r.Ok?
      ensures r.Ok? ==>
        && r.value.user.id in users
        && users[r.value.user.id].username == Field(username)
        && sessions == old(sessions)[token := r.value.user.id]
        && r.value == AuthReply(token, ViewOf(r.value.user.id, users[r.value.user.id]))
    {
      var u, p := Field(username), Field(password);
      if u == "" || p == "" {
        return Fail(400, FillLoginAndPassword);
      }
      if !UsernameTaken(u) {
        assert !CredentialsMatch(u, p, matches);
        return Fail(401, WrongCredentials);
      }
      var id :| id in users && users[id].username == u;
      var user := users[id];
      if !matches(p, user.passwordHash) {
        forall other | other in users && users[other].username == u
          ensures !matches(p, users[other].passwordHash)
        {
          assert other == id;
        }
        return Fail(401, WrongCredentials);
      }
      assert CredentialsMatch(u, p, matches);
      sessions := sessions[token := id];
      r := Ok(AuthReply(token, ViewOf(id, user)));
    }

    /** POST /api/subscriptions/toggle: answers with the new subscription state. */
    method ToggleSubscription(userId: Id, channelId: Option<string>) returns (r: Response<bool>)
      modifies this`subscriptions
      ensures !Truthy(channelId) ==> r == Fail(400, NoChannelId) && subscriptions == old(subscriptions)
      ensures Truthy(channelId) ==>
        && subscriptions == Toggle(old(subscriptions), (userId, channelId.value))
        && r == Ok((userId, channelId.value) in subscriptions)
    {
      if !Truthy(channelId) {
        return Fail(400, NoChannelId);
      }
      var key := (userId, channelId.value);
      if key in subscriptions {
        subscriptions := subscriptions - {key};
        r := Ok(false);
      } else {
        subscriptions := subscriptions + {key};
        r := Ok(true);
      }
    }

    /** POST /api/interact/like: the user's row for the video is replaced by one of the given type, or removed for 'none'. */
    method React(userId: Id, videoId: Option<Id>, kind: Option<string>) returns (r: Response<bool>)
      modifies this`likes
      ensures videoId.Some? ==> likes == SetReaction(old(likes), userId, videoId.value, kind)
      ensures videoId.None? ==> likes == old(likes)
      ensures r == Ok(true)
    {
      if videoId.Some? {
        likes := likes - {(userId, videoId.value)};
        if kind != Some("none") {
          likes := likes[(userId, videoId.value) := kind];
        }
      }
      r := Ok(true);
    }

    /**
      POST /api/interact/comment: a missing or empty videoId or text is refused with
      400; otherwise the trimmed text is stored under a fresh id.
     */
    method AddComment(userId: Id, videoId: Option<string>, text: Option<string>, id: Id, now: int) returns (r: Response<bool>)
      requires forall k :: 0 <= k < |comments| ==> comments[k].id != id
      modifies this`comments
      ensures !Truthy(videoId) || !Truthy(text) ==> r == Fail(400, NoData) && comments == old(comments)
      ensures Truthy(videoId) && Truthy(text) ==>
        && r == Ok(true)
        && comments == old(comments) + [CommentRow(id, videoId.value, userId, Trim(text.value), now)]
    {
      if !Truthy(videoId) || !Truthy(text) {
        return Fail(400, NoData);
      }
      comments := comments + [CommentRow(id, videoId.value, userId, Trim(text.value), now)];
      r := Ok(true);
    }

    /** Whether a video exists as the handler sees it: a row whose channel exists (the lookup joins the two). */
    predicate Findable(videoId: Id)
      reads this`videos, this`channels
    {
      videoId in videos && videos[videoId].ownerChannelId in channels
    }

    /**
      DELETE /api/videos/:id: 404 when the video is not found, 403 when the caller
      does not own its channel; otherwise its likes, its comments and the video go.
     */
    method DeleteVideo(userId: Id, videoId: Id) returns (r: Response<bool>)
      modifies this`videos, this`likes, this`comments
      ensures !old(Findable(videoId)) ==> r == Fail(404, NotFoundError)
      ensures old(Findable(videoId)) && channels[old(videos)[videoId].ownerChannelId].ownerUserId != userId ==> r == Fail(403, NotYourVideo)
      ensures r.Fail? ==> videos == old(videos) && likes == old(likes) && comments == old(comments)
      ensures r.Ok? <==> old(Findable(videoId)) && channels[old(videos)[videoId].ownerChannelId].ownerUserId == userId
      ensures r.Ok? ==>
        && videos == old(videos) - {videoId}
        && likes == DropLikes(old(likes), videoId)
        && comments == DropComments(old(comments), videoId)
    {
      if !Findable(videoId) {
        return Fail(404, NotFoundError);
      }
      var ownerUserId := channels[videos[videoId].ownerChannelId].ownerUserId;
      if ownerUserId != userId {
        return Fail(403, NotYourVideo);
      }
      likes := DropLikes(likes, videoId);
      comments := DropComments(comments, videoId);
      videos := videos - {videoId};
      r := Ok(true);
    }

    /**
      GET /api/videos/:id/details: the number of 'like' rows, the caller's own
      reaction, the comments newest first, and whether the caller subscribes to the
      video's channel and how many do (false and 0 when there is no such video).
     */
    function Details(userId: Id, videoId: Id): (d: VideoDetails)
      reads this
      ensures d.likes == LikeCount(likes, videoId)
      ensures (userId, videoId) in likes ==> d.userReaction == likes[(userId, videoId)]
      ensures (userId, videoId) !in likes ==> d.userReaction.None?
      ensures NewestFirst(d.comments) && multiset(d.comments) == multiset(CommentViews(comments, users, videoId))
      ensures videoId !in videos ==> !d.isSubscribed && d.subscribersCount == 0
      ensures videoId in videos ==>
        && (d.isSubscribed <==> (userId, videos[videoId].ownerChannelId) in subscriptions)
        && d.subscribersCount == Subscribers(subscriptions, videos[videoId].ownerChannelId)
    {
      var reaction := if (userId, videoId) in likes then likes[(userId, videoId)] else None;
      var cs := SortNewestFirst(CommentViews(comments, users, videoId));
      if videoId in videos then
        var ch := videos[videoId].ownerChannelId;
        VideoDetails(LikeCount(likes, videoId), reaction, cs, (userId, ch) in subscriptions, Subscribers(subscriptions, ch))
      else
        VideoDetails(LikeCount(likes, videoId), reaction, cs, false, 0)
    }
  }

  /**
    A user who has just registered can log in with the same credentials, given that
    bcrypt's compare accepts the trimmed password against the hash bcrypt made of it.
   */
  method RegisterThenLogin(db: Database, name: string, username: string, password: string,
                           hash: string -> string, matches: (string, string) -> bool,
                           id: Id, token1: string, token2: string, now: int)
    returns (registered: Response<AuthReply>, loggedIn: Response<AuthReply>)
    requires db.Valid()
    requires id !in db.users && token1 !in db.sessions && token2 !in db.sessions && token1 != token2
    requires Trim(password) != "" ==> matches(Trim(password), hash(Trim(password)))
    modifies db
    ensures registered.Ok? ==> loggedIn.Ok? && loggedIn.value.user == registered.value.user
  {
    registered := db.Register(Some(name), Some(username), Some(password), hash, id, token1, now);
    loggedIn := db.Login(Some(username), Some(password), matches, token2);
    if registered.Ok? {
      assert db.users[id].username == Field(Some(username));
      assert loggedIn.value.user.id == id by {
        assert db.Valid();
      }
    }
  }
}
