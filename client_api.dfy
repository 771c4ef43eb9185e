/**
  The browser side of authentication in public/js/api.js: the token and the
  serialised user kept in localStorage, the `currentUser` cell, and apiFetch,
  which decorates every request with the stored token and sorts the reply into
  a value, a null (the session was dropped) or a thrown error message.
  localStorage, JSON.parse, JSON.stringify and fetch are given as parameters.
 */
module ClientApi {
  import opened Js
  import Server

  // ---------------------------------------------------------------------------
  // Stored authentication

  /** localStorage maps key names to strings; the auth code reads and writes only 'token' and 'user'. */
  type Storage = map<string, string>

  const TokenKey := "token"
  const UserKey := "user"

  /** A user object as the page holds it: its string-valued properties. */
  type UserObject = map<string, string>

  /** The value of `currentUser`: null, an object, or another JSON value (number, string, boolean) with its truthiness. */
  datatype JsValue = JNull | JObject(props: UserObject) | JPrimitive(truthy: bool)

  /** What JSON.parse makes of a string: it throws, or it yields a value. */
  datatype ParseResult = Malformed | Parsed(value: JsValue)

  /**
    Whether the script runs in strict mode. api.js is an ES module and so strict:
    setting a property on a primitive throws. script.js is a classic script: the
    same assignment is silently ignored.
   */
  datatype Strictness = Strict | Sloppy

  const TokenProperty := "token"
  const UndefinedText := "undefined"

  /** localStorage.getItem: null for a missing key. */
  function GetItem(local: Storage, key: string): (v: Option<string>)
    ensures v.Some? <==> key in local
    ensures v.Some? ==> v.value == local[key]
  {
    if key in local then Some(local[key]) else None
  }

  /** The user object with its `token` property set. */
  function WithToken(user: UserObject, token: string): (u: UserObject)
    ensures TokenProperty in u && u[TokenProperty] == token
    ensures forall p :: p != TokenProperty ==> (p in u <==> p in user) && (p in user ==> u[p] == user[p])
  {
    user[TokenProperty := token]
  }

  /** What localStorage and `currentUser` hold together. */
  datatype Auth = Auth(local: Storage, currentUser: JsValue)

  /**
    saveAuth(token, user): nothing happens without a token or a user; otherwise
    the user gets the token as a property, the token and the serialised user are
    stored, and the user becomes the current one.
   */
  function SavedAuth(a: Auth, token: Option<string>, user: Option<UserObject>, stringify: UserObject -> string): (r: Auth)
    ensures !Truthy(token) || user.None? ==> r == a
    ensures Truthy(token) && user.Some? ==>
      && GetItem(r.local, TokenKey) == token
      && GetItem(r.local, UserKey) == Some(stringify(WithToken(user.value, token.value)))
      && r.local - {TokenKey, UserKey} == a.local - {TokenKey, UserKey}
      && r.currentUser == JObject(WithToken(user.value, token.value))
  {
    if !Truthy(token) || user.None? then a
    else
      var u := WithToken(user.value, token.value);
      Auth(a.local[TokenKey := token.value][UserKey := stringify(u)], JObject(u))
  }

  /** A token and a user string are stored, and the user string is not "undefined": the condition for trying to parse. */
  predicate StoredPair(local: Storage)
  {
    Truthy(GetItem(local, TokenKey)) && Truthy(GetItem(local, UserKey)) && local[UserKey] != UndefinedText
  }

  /** What loadAuth leaves behind and returns. */
  datatype Loaded = Loaded(auth: Auth, ok: bool)

  /**
    loadAuth(): with a stored pair the user string is parsed into `currentUser`
    and a truthy result gets the stored token. A parse error, or (in strict code)
    a truthy primitive that cannot take a property, removes the stored user and
    answers false.
   */
  function LoadedAuth(a: Auth, parse: string -> ParseResult, mode: Strictness): (r: Loaded)
    ensures r.ok <==> StoredPair(a.local) && parse(a.local[UserKey]).Parsed?
                      && !(mode == Strict && parse(a.local[UserKey]).value == JPrimitive(true))
    ensures !StoredPair(a.local) ==> r == Loaded(a, false)
    ensures r.ok ==> r.auth.local == a.local
    ensures StoredPair(a.local) && !r.ok ==> r.auth.local == a.local - {UserKey}
    ensures StoredPair(a.local) && !r.ok ==>
      r.auth.currentUser == (if parse(a.local[UserKey]).Malformed? then a.currentUser else parse(a.local[UserKey]).value)
    ensures r.ok && parse(a.local[UserKey]).value.JObject? ==>
      r.auth.currentUser == JObject(WithToken(parse(a.local[UserKey]).value.props, a.local[TokenKey]))
    ensures r.ok && !parse(a.local[UserKey]).value.JObject? ==> r.auth.currentUser == parse(a.local[UserKey]).value
  {
    if !StoredPair(a.local) then Loaded(a, false)
    else
      match parse(a.local[UserKey])
      case Malformed => Loaded(Auth(a.local - {UserKey}, a.currentUser), false)
      case Parsed(v) =>
        match v
        case JObject(props) => Loaded(Auth(a.local, JObject(WithToken(props, a.local[TokenKey]))), true)
        case JPrimitive(true) =>
          if mode == Strict then Loaded(Auth(a.local - {UserKey}, v), false) else Loaded(Auth(a.local, v), true)
        case _ => Loaded(Auth(a.local, v), true)
  }

  /**
    What saveAuth stores, loadAuth reads back: when JSON.parse undoes JSON.stringify
    on the user object, a load after a save succeeds, keeps the storage, and yields
    the saved user with its token.
   */
  lemma SaveThenLoad(a: Auth, token: string, user: UserObject, stringify: UserObject -> string,
                     parse: string -> ParseResult, mode: Strictness)
    requires token != ""
    requires parse(stringify(WithToken(user, token))) == Parsed(JObject(WithToken(user, token)))
    requires stringify(WithToken(user, token)) !in {"", UndefinedText}
    ensures var saved := SavedAuth(a, Some(token), Some(user), stringify);
      LoadedAuth(saved, parse, mode) == Loaded(saved, true)
  {
    var saved := SavedAuth(a, Some(token), Some(user), stringify);
    var u := WithToken(user, token);
    assert saved.local[UserKey] == stringify(u);
    assert WithToken(u, token) == u;
  }

  /** Strict and sloppy loading differ only on a stored user that parses to a truthy primitive. */
  lemma StrictnessMatters(a: Auth, parse: string -> ParseResult)
    ensures LoadedAuth(a, parse, Strict) != LoadedAuth(a, parse, Sloppy) <==>
      StoredPair(a.local) && parse(a.local[UserKey]) == Parsed(JPrimitive(true))
  {
  }

  /** The user key is not even looked at without a token, so a load after a logout fails. */
  lemma NoTokenNoLoad(a: Auth, parse: string -> ParseResult, mode: Strictness)
    requires TokenKey !in a.local
    ensures LoadedAuth(a, parse, mode) == Loaded(a, false)
  {
  }

  // ---------------------------------------------------------------------------
  // Request decoration

  /** The body of a request: none, a FormData object, or a string (JSON text). */
  datatype Body = NoBody | FormDataBody | TextBody(text: string)

  /** `options.body` as a condition: an empty string is falsy. */
  predicate BodyTruthy(b: Body)
  {
    b.FormDataBody? || (b.TextBody? && b.text != "")
  }

  const AuthorizationHeader := "Authorization"
  const ContentTypeHeader := "Content-Type"
  const JsonType := "application/json"

  /** The JSON Content-Type is added for a non-empty, non-FormData body when no non-empty Content-Type is set. */
  predicate NeedsJsonType(headers: map<string, string>, body: Body)
  {
    BodyTruthy(body) && !body.FormDataBody? && !(ContentTypeHeader in headers && headers[ContentTypeHeader] != "")
  }

  /** The headers apiFetch sends: Bearer authorization from the stored token, and a JSON Content-Type when needed. */
  function Decorated(headers: map<string, string>, token: Option<string>, body: Body): (h: map<string, string>)
    ensures Truthy(token) ==> AuthorizationHeader in h && h[AuthorizationHeader] == Server.BearerPrefix + token.value
    ensures !Truthy(token) ==>
      (AuthorizationHeader in h <==> AuthorizationHeader in headers)
      && (AuthorizationHeader in headers ==> h[AuthorizationHeader] == headers[AuthorizationHeader])
    ensures NeedsJsonType(headers, body) ==> ContentTypeHeader in h && h[ContentTypeHeader] == JsonType
    ensures !NeedsJsonType(headers, body) ==>
      (ContentTypeHeader in h <==> ContentTypeHeader in headers)
      && (ContentTypeHeader in headers ==> h[ContentTypeHeader] == headers[ContentTypeHeader])
    ensures forall k :: k != AuthorizationHeader && k != ContentTypeHeader ==>
      (k in h <==> k in headers) && (k in headers ==> h[k] == headers[k])
  {
    var withAuth := if Truthy(token) then headers[AuthorizationHeader := Server.BearerPrefix + token.value] else headers;
    if NeedsJsonType(headers, body) then withAuth[ContentTypeHeader := JsonType] else withAuth
  }

  /** A Content-Type the caller set is never replaced, whatever the body. */
  lemma ContentTypeKept(headers: map<string, string>, token: Option<string>, body: Body)
    requires ContentTypeHeader in headers && headers[ContentTypeHeader] != ""
    ensures ContentTypeHeader in Decorated(headers, token, body)
    ensures Decorated(headers, token, body)[ContentTypeHeader] == headers[ContentTypeHeader]
  {
  }

  /** Uploads (FormData) and bodiless requests never get the JSON Content-Type added. */
  lemma NoJsonTypeWithoutText(headers: map<string, string>, token: Option<string>, body: Body)
    requires !body.TextBody?
    ensures ContentTypeHeader in Decorated(headers, token, body) <==> ContentTypeHeader in headers
  {
  }

  /** The header object as apiFetch updates it in place before the request goes out. */
  method DecorateHeaders(headers: map<string, string>, token: Option<string>, body: Body) returns (sent: map<string, string>)
    ensures sent == Decorated(headers, token, body)
  {
    sent := headers;
    if Truthy(token) {
      sent := sent[AuthorizationHeader := Server.BearerPrefix + token.value];
    }
    if BodyTruthy(body) && !body.FormDataBody? && !(ContentTypeHeader in sent && sent[ContentTypeHeader] != "") {
      sent := sent[ContentTypeHeader := JsonType];
    }
  }

  // ---------------------------------------------------------------------------
  // Response classification

  /** What `res.json()` gives on an error reply: nothing usable (not JSON, or null), or an object with its `error` field. */
  datatype ErrorBody = Unreadable | ErrorField(error: Option<string>)

  datatype HttpResponse = HttpResponse(status: int, body: ErrorBody)

  /** `res.ok` */
  predicate IsOk(status: int)
  {
    200 <= status <= 299
  }

  /** What fetch settles to: a rejection (network failure) or a response. */
  datatype FetchResult = NetworkError(message: string) | Received(res: HttpResponse)

  /** What apiFetch settles to: the response, null, or a thrown Error with its message. */
  datatype Outcome = Resolved(res: HttpResponse) | ResolvedNull | Rejected(message: string)

  /** How a 401 is handled for an endpoint. */
  datatype Unauthorized = PassThrough | ExpireSession | SilentLogout

  const LoginPath := "/auth/login"
  const RegisterPath := "/auth/register"
  const MePath := "/auth/me"
  const ServerErrorMessage := "Ошибка сервера"
  const UsernameTakenMessage := "Username taken"
  const LoginTakenMessage := "Логин занят"
  const SessionExpiredMessage := "Сессия истекла"

  /** A 401 from login or register is an ordinary error; one from /auth/me logs out quietly; any other logs out with a message. */
  function On401(endpoint: string): (c: Unauthorized)
    ensures c == PassThrough <==> Includes(endpoint, LoginPath) || Includes(endpoint, RegisterPath)
    ensures c == SilentLogout ==> endpoint == MePath
    ensures endpoint == MePath ==> c == SilentLogout
  {
    if Includes(endpoint, LoginPath) || Includes(endpoint, RegisterPath) then PassThrough
    else if endpoint != MePath then ExpireSession
    else SilentLogout
  }

  /** The message of the Error thrown for a non-ok reply. */
  function ErrorMessage(body: ErrorBody): (m: string)
    ensures m != UsernameTakenMessage
    ensures body.ErrorField? && Truthy(body.error) && body.error.value != UsernameTakenMessage ==> m == body.error.value
    ensures body.ErrorField? && body.error == Some(UsernameTakenMessage) ==> m == LoginTakenMessage
    ensures !(body.ErrorField? && Truthy(body.error)) ==> m == ServerErrorMessage
  {
    var m := if body.ErrorField? && Truthy(body.error) then body.error.value else ServerErrorMessage;
    if m == UsernameTakenMessage then LoginTakenMessage else m
  }

  /** Whether the reply makes apiFetch log out. */
  predicate LogsOut(endpoint: string, reply: FetchResult)
    ensures LogsOut(endpoint, reply) <==>
      reply.Received? && reply.res.status == 401 && !Includes(endpoint, LoginPath) && !Includes(endpoint, RegisterPath)
  {
    reply.Received? && reply.res.status == 401 && On401(endpoint) != PassThrough
  }

  /** The toast shown by that logout. */
  function LogoutMessage(endpoint: string): (m: Option<string>)
    ensures m.Some? <==> On401(endpoint) == ExpireSession
    ensures m.Some? ==> m.value == SessionExpiredMessage
  {
    if On401(endpoint) == ExpireSession then Some(SessionExpiredMessage) else None
  }

  /** How apiFetch settles for a fetch result. */
  function Settle(endpoint: string, reply: FetchResult): (o: Outcome)
    ensures o.ResolvedNull? <==> LogsOut(endpoint, reply)
    ensures o.Resolved? <==> reply.Received? && IsOk(reply.res.status)
    ensures o.Resolved? ==> o.res == reply.res
    ensures reply.NetworkError? ==> o == Rejected(reply.message)
    ensures reply.Received? && !IsOk(reply.res.status) && !LogsOut(endpoint, reply) ==> o == Rejected(ErrorMessage(reply.res.body))
  {
    match reply
    case NetworkError(m) => Rejected(m)
    case Received(res) =>
      if LogsOut(endpoint, reply) then ResolvedNull
      else if !IsOk(res.status) then Rejected(ErrorMessage(res.body))
      else Resolved(res)
  }

  /** /auth/me never passes a 401 through, and it logs out without a message. */
  lemma MeLogsOutQuietly()
    ensures On401(MePath) == SilentLogout && LogoutMessage(MePath) == None
  {
    assert !Includes(MePath, LoginPath) by {
      assert forall j :: 0 <= j <= |MePath| ==> !OccursAt(MePath, LoginPath, j);
    }
    assert !Includes(MePath, RegisterPath) by {
      assert forall j :: 0 <= j <= |MePath| ==> !OccursAt(MePath, RegisterPath, j);
    }
  }

  /** A 401 on the login endpoint reaches the caller as the server's error message, with no logout. */
  lemma LoginErrorReachesCaller(error: string)
    requires error != "" && error != UsernameTakenMessage
    ensures Settle(LoginPath, Received(HttpResponse(401, ErrorField(Some(error))))) == Rejected(error)
  {
    assert OccursAt(LoginPath, LoginPath, 0);
  }

  // ---------------------------------------------------------------------------
  // The module's state

  /** The state api.js keeps: localStorage, sessionStorage, `currentUser` and `window.currentChannelId`. */
  class Session {
    var local: Storage
    var session: map<string, string>
    var currentUser: JsValue
    var currentChannelId: Option<string>

    /** A page load: both storages are whatever the browser kept; `currentUser` starts as null and no channel is open. */
    constructor (local: Storage, session: map<string, string>)
      ensures this.local == local && this.session == session && currentUser == JNull && currentChannelId == None
    {
      this.local := local;
      this.session := session;
      currentUser := JNull;
      currentChannelId := None;
    }

    function State(): Auth
      reads this`local, this`currentUser
    {
      Auth(local, currentUser)
    }

    method SaveAuth(token: Option<string>, user: Option<UserObject>, stringify: UserObject -> string)
      modifies this`local, this`currentUser
      ensures State() == SavedAuth(old(State()), token, user, stringify)
    {
      if !Truthy(token) || user.None? {
        return;
      }
      var u := WithToken(user.value, token.value);
      local := local[TokenKey := token.value];
      local := local[UserKey := stringify(u)];
      currentUser := JObject(u);
    }

    method LoadAuth(parse: string -> ParseResult) returns (ok: bool)
      modifies this`local, this`currentUser
      ensures Loaded(State(), ok) == LoadedAuth(old(State()), parse, Strict)
    {
      var token := GetItem(local, TokenKey);
      var userStr := GetItem(local, UserKey);
      if Truthy(token) && Truthy(userStr) && userStr.value != UndefinedText {
        var parsed := parse(userStr.value);
        if parsed.Parsed? {
          currentUser := parsed.value;
          if currentUser.JObject? {
            currentUser := JObject(WithToken(currentUser.props, token.value));
            return true;
          } else if currentUser.JPrimitive? && currentUser.truthy {
            // a property cannot be set on a primitive in strict code: TypeError
            local := local - {UserKey};
            return false;
          }
          return true;
        }
        local := local - {UserKey};
      }
      return false;
    }

    /** logout(message): forgets the token, the user, sessionStorage and the channel; the toast shows a truthy message. */
    method Logout(message: Option<string>) returns (toast: Option<string>)
      modifies this`local, this`session, this`currentUser, this`currentChannelId
      ensures local == old(local) - {TokenKey, UserKey}
      ensures session == map[] && currentUser == JNull && currentChannelId == None
      ensures toast == (if Truthy(message) then message else None)
    {
      local := local - {TokenKey};
      local := local - {UserKey};
      session := map[];
      currentUser := JNull;
      currentChannelId := None;
      toast := if Truthy(message) then message else None;
    }

    /**
      apiFetch(endpoint, options): the headers are decorated in place and sent; the
      fetch result settles the call, and a 401 outside login and register logs out.
     */
    method ApiFetch(endpoint: string, headers: map<string, string>, body: Body, reply: FetchResult)
      returns (sent: map<string, string>, outcome: Outcome, toast: Option<string>)
      modifies this`local, this`session, this`currentUser, this`currentChannelId
      ensures sent == Decorated(headers, GetItem(old(local), TokenKey), body)
      ensures outcome == Settle(endpoint, reply)
      ensures LogsOut(endpoint, reply) ==>
        && local == old(local) - {TokenKey, UserKey} && session == map[] && currentUser == JNull && currentChannelId == None
        && toast == LogoutMessage(endpoint)
      ensures !LogsOut(endpoint, reply) ==>
        && local == old(local) && session == old(session) && currentUser == old(currentUser)
        && currentChannelId == old(currentChannelId) && toast == None
    {
      sent := DecorateHeaders(headers, GetItem(local, TokenKey), body);
      toast := None;
      match reply
      case NetworkError(m) =>
        outcome := Rejected(m);
      case Received(res) =>
        if res.status == 401 {
          if Includes(endpoint, LoginPath) || Includes(endpoint, RegisterPath) {
            // an ordinary error below
          } else if endpoint != MePath {
            toast := Logout(Some(SessionExpiredMessage));
            return sent, ResolvedNull, toast;
          } else {
            toast := Logout(None);
            return sent, ResolvedNull, toast;
          }
        }
        if !IsOk(res.status) {
          var message := ServerErrorMessage;
          if res.body.ErrorField? && Truthy(res.body.error) {
            message := res.body.error.value;
          }
          if message == UsernameTakenMessage {
            message := LoginTakenMessage;
          }
          return sent, Rejected(message), toast;
        }
        outcome := Resolved(res);
    }
  }
}
