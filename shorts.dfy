/**
  The shorts feed of public/js/shorts.js: the list rendered for a set of videos,
  with a per-render cache of video details that is filled only by successful
  requests, a once-only "details loaded" flag per item, and the like and comment
  counters of each item.
 */
module Shorts {
  import opened Js
  import Store
  import ClientApi
  import Counters

  type Id = string

  /** What loadVideoDetails hands back: the details the server sent, or the fallback object. */
  datatype Details = FromServer(d: Store.VideoDetails) | Fallback
  {
    /** `details.likes` */
    function Likes(): nat
    {
      if FromServer? then d.likes else 0
    }

    /** `details.userReaction` */
    function UserReaction(): Option<string>
    {
      if FromServer? then d.userReaction else None
    }

    /** `details.comments` */
    function Comments(): seq<Store.CommentView>
    {
      if FromServer? then d.comments else []
    }

    /** `details.isSubscribed` */
    function IsSubscribed(): bool
    {
      FromServer? && d.isSubscribed
    }
  }

  /** How the details request settles: apiFetch threw, returned null, or returned a reply whose JSON is these details. */
  datatype DetailsReply = Threw | NullReply | Body(details: Store.VideoDetails)

  /** The details request as apiFetch settles it, given the details the reply's JSON holds. */
  function ReplyOf(outcome: ClientApi.Outcome, details: Store.VideoDetails): (r: DetailsReply)
    ensures r.Body? <==> outcome.Resolved?
    ensures r.Body? ==> r.details == details
  {
    match outcome
    case Resolved(_) => Body(details)
    case ResolvedNull => NullReply
    case Rejected(_) => Threw
  }

  /** One call of loadVideoDetails: the details shown, the cache after it, and whether a request went out. */
  datatype CacheStep = CacheStep(details: Details, cache: map<Id, Store.VideoDetails>, requested: bool)

  /**
    loadVideoDetails(videoId): a cached entry is returned with no request; a miss
    asks the server, stores a successful answer and returns it, and on a throw or
    a null answer returns the fallback and stores nothing.
   */
  function LoadDetails(cache: map<Id, Store.VideoDetails>, videoId: Id, reply: DetailsReply): (r: CacheStep)
    ensures videoId in cache ==> r == CacheStep(FromServer(cache[videoId]), cache, false)
    ensures videoId !in cache ==> r.requested
    ensures videoId !in cache && reply.Body? ==> r.cache == cache[videoId := reply.details] && r.details == FromServer(reply.details)
    ensures videoId !in cache && !reply.Body? ==> r.cache == cache && r.details == Fallback
  {
    if videoId in cache then CacheStep(FromServer(cache[videoId]), cache, false)
    else
      match reply
      case Body(d) => CacheStep(FromServer(d), cache[videoId := d], true)
      case _ => CacheStep(Fallback, cache, true)
  }

  /** The cache only grows: an entry, once stored, is never changed or dropped. */
  lemma CacheGrows(cache: map<Id, Store.VideoDetails>, videoId: Id, reply: DetailsReply)
    ensures var r := LoadDetails(cache, videoId, reply);
      forall k :: k in cache ==> k in r.cache && r.cache[k] == cache[k]
  {
  }

  /** After a successful load, every later load of that video is answered from the cache, whatever the network would say. */
  lemma SecondLoadIsHit(cache: map<Id, Store.VideoDetails>, videoId: Id, first: Store.VideoDetails, later: DetailsReply)
    requires videoId !in cache
    ensures var c := LoadDetails(cache, videoId, Body(first)).cache;
      LoadDetails(c, videoId, later) == CacheStep(FromServer(first), c, false)
  {
  }

  /** A failed load leaves nothing behind, so the next load asks the server again and can succeed. */
  lemma FailureIsRetried(cache: map<Id, Store.VideoDetails>, videoId: Id, failure: DetailsReply, d: Store.VideoDetails)
    requires videoId !in cache && !failure.Body?
    ensures var c := LoadDetails(cache, videoId, failure).cache;
      var r := LoadDetails(c, videoId, Body(d));
      r.requested && r.details == FromServer(d) && r.cache == cache[videoId := d]
  {
  }

  /** Whether the item at i is flagged with `detailsLoaded`: only the first one is, right after rendering. */
  predicate FirstOnly(flags: seq<bool>)
  {
    forall i :: 0 <= i < |flags| ==> flags[i] == (i == 0)
  }

  /** One render of renderShortsList: the items in video order, their `detailsLoaded` flags, and the details cache. */
  class ShortsList {
    var videoIds: seq<Id>
    var detailsLoaded: seq<bool>
    var cache: map<Id, Store.VideoDetails>

    ghost predicate Valid()
      reads this`videoIds, this`detailsLoaded
    {
      |detailsLoaded| == |videoIds|
    }

    /** Builds one item per video, in order, starts with an empty cache and flags the first item as loaded. */
    constructor (videos: seq<Id>)
      ensures Valid()
      ensures videoIds == videos && FirstOnly(detailsLoaded) && cache == map[]
    {
      var ids: seq<Id> := [];
      var flags: seq<bool> := [];
      var i := 0;
      while i < |videos|
        invariant 0 <= i <= |videos|
        invariant ids == videos[..i] && |flags| == i
        invariant forall j :: 0 <= j < i ==> !flags[j]
      {
        ids := ids + [videos[i]];
        flags := flags + [false];
        i := i + 1;
      }
      if |videos| > 0 {
        flags := flags[0 := true];
      }
      videoIds := ids;
      detailsLoaded := flags;
      cache := map[];
    }

    /** loadVideoDetails(videoId), with `reply` standing for the request it would make. */
    method LoadVideoDetails(videoId: Id, reply: DetailsReply) returns (details: Details, requested: bool)
      modifies this`cache
      ensures CacheStep(details, cache, requested) == LoadDetails(old(cache), videoId, reply)
    {
      if videoId in cache {
        return FromServer(cache[videoId]), false;
      }
      requested := true;
      match reply
      case Body(d) =>
        cache := cache[videoId := d];
        details := FromServer(d);
      case _ =>
        details := Fallback;
    }

    /** The first item's details, loaded as soon as the list is rendered. */
    method LoadFirst(reply: DetailsReply) returns (details: Details, requested: bool)
      requires |videoIds| > 0
      modifies this`cache
      ensures CacheStep(details, cache, requested) == LoadDetails(old(cache), videoIds[0], reply)
    {
      details, requested := LoadVideoDetails(videoIds[0], reply);
    }

    /**
      The observer sees item i on screen: an item not yet flagged is flagged and its
      details are loaded; a flagged item loads nothing.
     */
    method OnVisible(i: nat, reply: DetailsReply) returns (shown: Option<Details>, requested: bool)
      requires Valid() && i < |videoIds|
      modifies this`detailsLoaded, this`cache
      ensures Valid()
      ensures old(detailsLoaded[i]) ==>
        shown == None && !requested && detailsLoaded == old(detailsLoaded) && cache == old(cache)
      ensures !old(detailsLoaded[i]) ==>
        && detailsLoaded == old(detailsLoaded)[i := true]
        && var step := LoadDetails(old(cache), videoIds[i], reply);
           shown == Some(step.details) && cache == step.cache && requested == step.requested
    {
      if detailsLoaded[i] {
        return None, false;
      }
      detailsLoaded := detailsLoaded[i := true];
      var details;
      details, requested := LoadVideoDetails(videoIds[i], reply);
      shown := Some(details);
    }
  }

  /** Seeing the same item twice loads its details at most once: the second sighting sends no request. */
  method SeenTwice(list: ShortsList, i: nat, first: DetailsReply, second: DetailsReply)
    returns (shown: Option<Details>, requested: bool)
    requires list.Valid() && i < |list.videoIds|
    modifies list
    ensures shown == None && !requested
  {
    var shownFirst, requestedFirst := list.OnVisible(i, first);
    shown, requested := list.OnVisible(i, second);
  }

  /** What one rendered short shows and holds: its like button and counter, its comment counter, input and list. */
  class ShortItem {
    var likeActive: bool
    var likesText: string
    var commentCountText: string
    var inputText: string
    var comments: seq<string>
    var subscribed: bool

    /** A fresh item: both counters read "0", nothing is liked, typed or listed. */
    constructor ()
      ensures !likeActive && likesText == "0" && commentCountText == "0"
      ensures inputText == "" && comments == [] && !subscribed
    {
      likeActive, likesText, commentCountText := false, "0", "0";
      inputText, comments, subscribed := "", [], false;
    }

    /**
      updateShortDetails: the counters show the server's numbers, the list shows its
      comments; the like button and the subscribe button are only ever switched on.
     */
    method ShowDetails(details: Details)
      modifies this`likeActive, this`likesText, this`commentCountText, this`comments, this`subscribed
      ensures likesText == IntText(details.Likes())
      ensures commentCountText == IntText(|details.Comments()|)
      ensures comments == Store.CommentTexts(details.Comments())
      ensures likeActive == (old(likeActive) || details.UserReaction() == Some("like"))
      ensures subscribed == (old(subscribed) || details.IsSubscribed())
    {
      if details.IsSubscribed() {
        subscribed := true;
      }
      likesText := IntText(details.Likes());
      if details.UserReaction() == Some("like") {
        likeActive := true;
      }
      commentCountText := IntText(|details.Comments()|);
      comments := Store.CommentTexts(details.Comments());
    }

    /**
      toggleShortLike: the request always asks for type 'like'. Unless apiFetch
      throws, the button flips and the counter follows it (a null reply counts too).
     */
    method ToggleLike(outcome: ClientApi.Outcome) returns (requestedType: string)
      modifies this`likeActive, this`likesText
      ensures requestedType == "like"
      ensures outcome.Rejected? ==> likeActive == old(likeActive) && likesText == old(likesText)
      ensures !outcome.Rejected? ==> likeActive == !old(likeActive) && likesText == Counters.NextLikeText(old(likesText), likeActive)
    {
      requestedType := "like";
      if outcome.Rejected? {
        return;
      }
      likeActive := !likeActive;
      likesText := Counters.NextLikeText(likesText, likeActive);
    }

    /**
      sendShortComment: a blank input sends nothing. Otherwise the trimmed text is
      sent; on success the input is cleared, the comment is put first in the list
      and the counter goes up by one; a thrown error is shown as a toast.
     */
    method SendComment(outcome: ClientApi.Outcome) returns (sent: Option<string>, toast: Option<string>)
      modifies this`inputText, this`comments, this`commentCountText
      ensures Trim(old(inputText)) == "" ==>
        sent == None && toast == None && inputText == old(inputText) && comments == old(comments) && commentCountText == old(commentCountText)
      ensures Trim(old(inputText)) != "" ==> sent == Some(Trim(old(inputText)))
      ensures Trim(old(inputText)) != "" && outcome.Rejected? ==>
        toast == Some(outcome.message) && inputText == old(inputText) && comments == old(comments) && commentCountText == old(commentCountText)
      ensures Trim(old(inputText)) != "" && !outcome.Rejected? ==>
        && toast == None && inputText == ""
        && comments == [Trim(old(inputText))] + old(comments)
        && commentCountText == Counters.NextCommentText(old(commentCountText))
    {
      var text := Trim(inputText);
      if text == "" {
        return None, None;
      }
      sent := Some(text);
      if outcome.Rejected? {
        return sent, Some(outcome.message);
      }
      toast := None;
      inputText := "";
      comments := [text] + comments;
      commentCountText := Counters.NextCommentText(commentCountText);
    }
  }
}
