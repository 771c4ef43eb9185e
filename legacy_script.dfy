/**
  public/script.js, the older single-file client. Its saveAuth, loadAuth and
  apiFetch are copies of the ones in api.js, but it is a classic (non-strict)
  script, its logout leaves sessionStorage and the channel id alone, and it has
  its own delete confirmation and shorts handlers.
 */
module LegacyScript {
  import opened Js
  import opened ClientApi
  import Store
  import Counters

  const VideoDeletedMessage := "Видео удалено"

  /** The page globals of script.js: localStorage, `currentUser`, `deleteVideoId` and whether the confirm dialog is open. */
  class Page {
    var local: Storage
    var currentUser: JsValue
    var deleteVideoId: Option<string>
    var confirmOpen: bool

    constructor (local: Storage)
      ensures this.local == local && currentUser == JNull && deleteVideoId == None && !confirmOpen
    {
      this.local := local;
      currentUser := JNull;
      deleteVideoId := None;
      confirmOpen := false;
    }

    function State(): Auth
      reads this`local, this`currentUser
    {
      Auth(local, currentUser)
    }

    method SaveAuth(token: Option<string>, user: Option<UserObject>, stringify: UserObject -> string)
      modifies this`local, this`currentUser
      ensures State() == SavedAuth(old(State()), token, user, stringify)
    {
      if !Truthy(token) || user.None? {
        return;
      }
      var u := WithToken(user.value, token.value);
      local := local[TokenKey := token.value];
      local := local[UserKey := stringify(u)];
      currentUser := JObject(u);
    }

    /** loadAuth() of a non-strict script: setting `token` on a parsed primitive is ignored and the load succeeds. */
    method LoadAuth(parse: string -> ParseResult) returns (ok: bool)
      modifies this`local, this`currentUser
      ensures Loaded(State(), ok) == LoadedAuth(old(State()), parse, Sloppy)
    {
      var token := GetItem(local, TokenKey);
      var userStr := GetItem(local, UserKey);
      if Truthy(token) && Truthy(userStr) && userStr.value != UndefinedText {
        var parsed := parse(userStr.value);
        if parsed.Parsed? {
          currentUser := parsed.value;
          if currentUser.JObject? {
            currentUser := JObject(WithToken(currentUser.props, token.value));
          }
          return true;
        }
        local := local - {UserKey};
      }
      return false;
    }

    /** logout(message) of script.js: only the token, the user and `currentUser` are forgotten. */
    method Logout(message: Option<string>) returns (toast: Option<string>)
      modifies this`local, this`currentUser
      ensures local == old(local) - {TokenKey, UserKey} && currentUser == JNull
      ensures toast == (if Truthy(message) then message else None)
    {
      local := local - {TokenKey};
      local := local - {UserKey};
      currentUser := JNull;
      toast := if Truthy(message) then message else None;
    }

    /** apiFetch of script.js: the same decoration and settlement as api.js, with this script's logout. */
    method ApiFetch(endpoint: string, headers: map<string, string>, body: Body, reply: FetchResult)
      returns (sent: map<string, string>, outcome: Outcome, toast: Option<string>)
      modifies this`local, this`currentUser
      ensures sent == Decorated(headers, GetItem(old(local), TokenKey), body)
      ensures outcome == Settle(endpoint, reply)
      ensures LogsOut(endpoint, reply) ==>
        local == old(local) - {TokenKey, UserKey} && currentUser == JNull && toast == LogoutMessage(endpoint)
      ensures !LogsOut(endpoint, reply) ==> local == old(local) && currentUser == old(currentUser) && toast == None
    {
      sent := DecorateHeaders(headers, GetItem(local, TokenKey), body);
      outcome := Settle(endpoint, reply);
      toast := None;
      if LogsOut(endpoint, reply) {
        toast := Logout(LogoutMessage(endpoint));
      }
    }

    /** askDelete(id): remembers the video and opens the confirm dialog. */
    method AskDelete(id: string)
      modifies this`deleteVideoId, this`confirmOpen
      ensures deleteVideoId == Some(id) && confirmOpen
    {
      deleteVideoId := Some(id);
      confirmOpen := true;
    }

    /**
      The confirm button: without a pending id nothing happens. Otherwise DELETE is
      sent for the pending video; unless apiFetch throws (a null reply included),
      the success toast is shown and the dialog closes. The pending id is kept.
     */
    method ConfirmDelete(outcome: Outcome) returns (deleted: Option<string>, toast: Option<string>)
      modifies this`confirmOpen
      ensures !Truthy(deleteVideoId) ==> deleted == None && toast == None && confirmOpen == old(confirmOpen)
      ensures Truthy(deleteVideoId) ==> deleted == deleteVideoId
      ensures Truthy(deleteVideoId) && outcome.Rejected? ==> toast == Some(outcome.message) && confirmOpen == old(confirmOpen)
      ensures Truthy(deleteVideoId) && !outcome.Rejected? ==> toast == Some(VideoDeletedMessage) && !confirmOpen
    {
      if !Truthy(deleteVideoId) {
        return None, None;
      }
      deleted := deleteVideoId;
      if outcome.Rejected? {
        return deleted, Some(outcome.message);
      }
      toast := Some(VideoDeletedMessage);
      confirmOpen := false;
    }
  }

  /** Confirming twice after one askDelete sends DELETE for the same video both times: the pending id is never cleared. */
  method ConfirmTwice(page: Page, id: string, first: Outcome, second: Outcome) returns (a: Option<string>, b: Option<string>)
    requires id != ""
    modifies page
    ensures a == Some(id) && b == Some(id)
  {
    page.AskDelete(id);
    var toast1, toast2;
    a, toast1 := page.ConfirmDelete(first);
    b, toast2 := page.ConfirmDelete(second);
  }

  /** A short card of script.js: its like button and counter, its comment input and list. */
  class ShortCard {
    var likeActive: bool
    var likesText: string
    var inputText: string
    var comments: seq<string>

    /**
      loadShorts renders a card from the details the server sent for the video:
      the like button is active when the user's reaction is 'like', the counter
      shows the server's count, and the list shows the comments in the order given.
     */
    constructor (details: Store.VideoDetails)
      ensures likeActive == (details.userReaction == Some("like"))
      ensures likesText == IntText(details.likes) && inputText == ""
      ensures comments == Store.CommentTexts(details.comments)
    {
      likeActive := details.userReaction == Some("like");
      likesText := IntText(details.likes);
      inputText := "";
      comments := Store.CommentTexts(details.comments);
    }

    /** toggleShortLike: the request asks for 'like'; unless apiFetch throws, the button flips and the counter follows. */
    method ToggleShortLike(outcome: Outcome) returns (requestedType: string)
      modifies this`likeActive, this`likesText
      ensures requestedType == "like"
      ensures outcome.Rejected? ==> likeActive == old(likeActive) && likesText == old(likesText)
      ensures !outcome.Rejected? ==> likeActive == !old(likeActive) && likesText == Counters.NextLikeText(old(likesText), likeActive)
    {
      requestedType := "like";
      if outcome.Rejected? {
        return;
      }
      likeActive := !likeActive;
      likesText := Counters.NextLikeText(likesText, likeActive);
    }

    /**
      sendShortComment: a blank input sends nothing. Otherwise the trimmed text is
      sent and, unless apiFetch throws, the input is cleared and the comment put
      first; this version has no counter to update.
     */
    method SendShortComment(outcome: Outcome) returns (sent: Option<string>, toast: Option<string>)
      modifies this`inputText, this`comments
      ensures Trim(old(inputText)) == "" ==> sent == None && toast == None && inputText == old(inputText) && comments == old(comments)
      ensures Trim(old(inputText)) != "" ==> sent == Some(Trim(old(inputText)))
      ensures Trim(old(inputText)) != "" && outcome.Rejected? ==>
        toast == Some(outcome.message) && inputText == old(inputText) && comments == old(comments)
      ensures Trim(old(inputText)) != "" && !outcome.Rejected? ==>
        toast == None && inputText == "" && comments == [Trim(old(inputText))] + old(comments)
    {
      var text := Trim(inputText);
      if text == "" {
        return None, None;
      }
      sent := Some(text);
      if outcome.Rejected? {
        return sent, Some(outcome.message);
      }
      toast := None;
      inputText := "";
      comments := [text] + comments;
    }
  }
}
