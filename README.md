# AI-TUBE 2.0: a Dafny model of its server handlers and browser client

AI-TUBE is a small video site. An Express server (`server.js`) keeps users,
sessions, channels, videos, likes, comments and subscriptions in SQLite and
streams uploaded files. Two browser clients talk to it: the module-based one
under `public/js/` and the older single-file `public/script.js`.

This project models the core of both sides:

- **Server** (`server.dfy`, `store.dfy`):
  - the `authenticate` middleware and its bearer-token extraction;
  - register and login, with their field trimming and validation;
  - toggling a subscription, setting a reaction, posting a comment;
  - deleting a video together with its likes and comments;
  - the aggregation behind `GET /api/videos/:id/details`;
  - the SQL and parameter list that `GET /api/videos` builds;
  - the `Range` handling of `/api/stream/:filename`;
  - the two ways the `isShort` flag is read.

  The database is a `class` with one field per table, and every handler is a
  method that changes only the tables it writes.
- **The module client** (`client_api.dfy`): `saveAuth`, `loadAuth`, `logout` and
  `apiFetch` of `public/js/api.js`. The browser state is a `class` holding
  localStorage, sessionStorage, `currentUser` and the current channel id. Header
  decoration and response settlement are pure functions that the methods are
  proved against.
- **The shorts feed** (`shorts.dfy`): the details cache that `loadVideoDetails`
  fills, the once-only `detailsLoaded` flag of each item, and the like and
  comment counters of an item.
- **The older client** (`legacy_script.dfy`):
  - the copies of the auth functions and `apiFetch` in `public/script.js`;
  - its narrower `logout`;
  - the delete confirmation (`askDelete` and the confirm button);
  - its short-card like and comment handlers.
- **Shared pieces**:
  - `counters.dfy` holds the counters' arithmetic on element text (`parseInt`,
    `+ 1`, `Math.max(0, …)`).
  - `js.dfy` holds the JavaScript built-ins the code relies on: `String.prototype.trim`,
    `parseInt` with `NaN`, number-to-string, `split` on one character,
    `replace` of the first match, `includes`, and truthiness of optional strings.
  - `end_to_end.dfy` joins the two sides. The header the client builds is the one
    the middleware reads, the server's messages reach the page, and the shorts like
    button never removes a like on the server. The last two are methods that call
    the server handlers and the page handlers in turn.

The JavaScript semantics this model follows:

- `api.js` is an ES module and so runs in strict mode. Setting `token` on a parsed
  primitive there throws, and the `catch` removes the stored user. `script.js` is
  a classic script, where that assignment is silently ignored.
- Both `apiFetch` copies return `null` after a 401 logout. Callers that only
  `await` it go on as on success: the like button still flips, and the delete
  dialog still says the video was deleted.
- `parseInt` of text that is not a number is `NaN`, and `NaN` survives
  `+ 1` and `Math.max`. The like counter then reads "NaN". The comment counter
  uses `|| 0` and restarts at one.
- The stream handler opens the read stream before it writes the 206 head.
  `fs.createReadStream` throws for a NaN position, a start after the end, or an
  end of -1 (the last byte of an empty file). The throw reaches Express's error
  handler, which answers 500. So a suffix range such as `bytes=-500`, a closed
  range whose start is after its end, and an open range `bytes=S-` whose start
  is at or past the end of the file (its end defaults to the last byte, before S)
  are answered 500, not 206. A closed range inside or past the file with start
  <= end, such as `bytes=200-300` on a 100-byte file, passes Node's checks and
  gets its 206 head.
- The comment handler checks `!text` before it trims. A comment of only spaces
  passes the check and is stored as the empty string.

## Model

| member | source | states |
|---|---|---|
| Js.OrEmpty | AI-TUBE_2.0/server.js:82-84 | `String(v \|\| '')` is the value itself exactly when the value is truthy, and is empty otherwise |
| Js.Trim | AI-TUBE_2.0/server.js:82-84 | the trimmed string is no longer than its input, and neither end of it is white space |
| Js.TrimStartDrops | AI-TUBE_2.0/server.js:82-84 | trimming the front removes exactly a prefix made only of white space |
| Js.TrimEndDrops | AI-TUBE_2.0/server.js:82-84 | trimming the back keeps a prefix and drops only white space |
| Js.TrimEmptyIff | AI-TUBE_2.0/server.js:86 | a field trims to empty exactly when it is made only of white space |
| Js.TrimIdempotent | AI-TUBE_2.0/public/js/shorts.js:353 | trimming twice gives the same as trimming once |
| Js.TrimStart | AI-TUBE_2.0/server.js:82-84 | the result is no longer than the input and does not start with white space |
| Js.TrimEnd | AI-TUBE_2.0/server.js:82-84 | the result is no longer than the input and does not end with white space |
| Js.IndexOf | AI-TUBE_2.0/public/js/api.js:70 | the index found is the first occurrence of the pattern, and no index is found exactly when the pattern occurs nowhere |
| Js.ReplaceFirst | AI-TUBE_2.0/server.js:266 | with no match the string is unchanged; otherwise the text before the first match is followed by the replacement and then by the text after the match, unchanged |
| Js.ReplaceFirstAbsent | AI-TUBE_2.0/server.js:266 | replacing a pattern that does not occur leaves the string unchanged |
| Js.ReplaceFirstAtStart | AI-TUBE_2.0/server.js:266 | replacing the first match of a leading pattern swaps just that prefix |
| Js.Split | AI-TUBE_2.0/server.js:266 | split gives at least one part, no part holds the separator, and joining the parts back gives the input |
| Js.SplitWithoutSeparator | AI-TUBE_2.0/server.js:266 | a string without the separator splits into itself alone |
| Js.SplitAtFirst | AI-TUBE_2.0/server.js:266 | splitting at a first separator gives the part before it, followed by the parts of the rest |
| Js.Max0 | AI-TUBE_2.0/public/js/shorts.js:343 | `Math.max(0, n)` is never negative, is 0 or n, and keeps NaN |
| Js.OrZero | AI-TUBE_2.0/public/js/shorts.js:371 | `n \|\| 0` is n for a number and 0 for NaN |
| Js.DigitPrefix | AI-TUBE_2.0/server.js:267 | `parseInt` reads the longest prefix of decimal digits, stopping at the first non-digit |
| Js.ParseInt | AI-TUBE_2.0/public/js/shorts.js:342 | a negative result needs a minus sign in the text |
| Js.NatText | AI-TUBE_2.0/server.js:271 | a natural number prints as a non-empty run of digits |
| Js.DigitsValueOfNatText | AI-TUBE_2.0/server.js:271 | the digits printed for n are worth n |
| Js.IntText | AI-TUBE_2.0/server.js:271 | the text of an integer is never empty and starts with '-' exactly when the integer is negative |
| Js.NumText | AI-TUBE_2.0/public/js/shorts.js:343 | a number prints as "NaN" exactly when it is NaN |
| Js.ParseIntEmpty | AI-TUBE_2.0/server.js:267 | `parseInt('')` is NaN |
| Js.ParseNatText | AI-TUBE_2.0/server.js:267 | `parseInt` reads back the text of any natural number |
| Js.ParseIntText | AI-TUBE_2.0/public/js/shorts.js:342-343 | `parseInt` reads back the text of any integer, negative ones included |
| Js.ParseIntNumText | AI-TUBE_2.0/public/js/shorts.js:342-343 | `parseInt(String(n))` is n for every number and for NaN |
| Server.ExtractToken | AI-TUBE_2.0/server.js:71 | a header starting with "Bearer " gives what follows it, and any other header is taken whole |
| Server.ExtractBearer | AI-TUBE_2.0/server.js:71 | "Bearer " followed by any t gives back exactly t |
| Server.StreamReply.Headers | AI-TUBE_2.0/server.js:271-274 | the `writeHead` headers: a 206 reply writes Content-Range, Accept-Ranges 'bytes', Content-Length and Content-Type 'video/mp4'; a 200 reply writes only Content-Length and Content-Type 'video/mp4'; a 404 or 500 reply writes no `writeHead` headers |
| Server.PartialHeaderValues | AI-TUBE_2.0/server.js:269-271 | a 206 for S..E of a file of a given size has Content-Range "bytes S-E/size" and a Content-Length that reads back as E - S + 1 |
| Server.RangeBounds | AI-TUBE_2.0/server.js:266-268 | each bound is NaN or at least 0, except that a missing end is the last byte, which is -1 for an empty file |
| Server.Readable | AI-TUBE_2.0/server.js:270 | positions the read stream accepts are both numbers, the end is never -1, and they cover at least one byte |
| Server.Stream | AI-TUBE_2.0/server.js:259-275 | a missing file is 404; without a Range header it is the whole file; with one it is 206 exactly when both bounds are numbers with 0 <= start <= end, for that start and end, and 500 otherwise |
| Server.RangeBoundsAfterUnit | AI-TUBE_2.0/server.js:266-268 | after "bytes=" the start is the first '-' part, and the end is the second part or else the last byte |
| Server.WholeFile | AI-TUBE_2.0/server.js:273-274 | without a range the status is 200 and Content-Length reads back as the file size |
| Server.ClosedRangeBounds | AI-TUBE_2.0/server.js:266-268 | "bytes=s-e" gives start s and end e |
| Server.ClosedRange | AI-TUBE_2.0/server.js:265-271 | "bytes=s-e" with s <= e is a 206 for s..e, with Content-Range "bytes s-e/size" and a Content-Length that reads back as e - s + 1; with s > e it is a 500 |
| Server.ClosedRangeReply | AI-TUBE_2.0/server.js:265-270 | the reply to "bytes=s-e" is a 206 for s..e exactly when s <= e, and a 500 otherwise |
| Server.OpenRangeBounds | AI-TUBE_2.0/server.js:266-268 | "bytes=s-" gives start s and the last byte as its end |
| Server.OpenRange | AI-TUBE_2.0/server.js:265-271 | "bytes=s-" with s inside the file is a 206 from s to the last byte, with Content-Range "bytes s-(size-1)/size" and a Content-Length that reads back as size - s; a start at or past the end is a 500 |
| Server.OpenRangeReply | AI-TUBE_2.0/server.js:265-270 | the reply to "bytes=s-" is a 206 from s to the last byte exactly when s is inside the file, and a 500 otherwise |
| Server.SuffixRangeBounds | AI-TUBE_2.0/server.js:266-268 | the suffix form "bytes=-n" gives a NaN start and end n |
| Server.SuffixRangeFails | AI-TUBE_2.0/server.js:265-271 | a suffix range "bytes=-n" is answered 500, because its start is NaN |
| Server.UploadIsShort | AI-TUBE_2.0/server.js:214 | an upload is a short exactly for 'true', 'on' or boolean true, and the flag is 0 or 1 |
| Server.ListingIsShort | AI-TUBE_2.0/server.js:248 | the listing filter is 1 exactly for 'true', and 0 otherwise |
| Server.ShortFlagsAgree | AI-TUBE_2.0/server.js:214 | a flag the listing reads as short is stored as short; 'on' is stored as short but filters for non-shorts |
| Server.ActiveFilters | AI-TUBE_2.0/server.js:248-250 | at most three filters are active, and none is exactly when isShort is absent and channelId and search are falsy |
| Server.FilterParams | AI-TUBE_2.0/server.js:248-250 | the search filter binds two parameters, and the others bind one each |
| Server.Conditions | AI-TUBE_2.0/server.js:248-251 | one condition per active filter, in filter order |
| Server.HolesAppend | AI-TUBE_2.0/server.js:251 | the placeholders of two concatenated pieces of SQL add up |
| Server.ConditionHoles | AI-TUBE_2.0/server.js:248-250 | each condition has as many `?` as the parameters its filter pushes |
| Server.JoinedHoles | AI-TUBE_2.0/server.js:251 | the conditions joined with AND have as many `?` as there are parameters |
| Server.HolesMatchParams | AI-TUBE_2.0/server.js:246-252 | the whole statement has exactly as many `?` as parameters |
| Server.ConditionsSnoc | AI-TUBE_2.0/server.js:248-250 | pushing one more filter appends its condition |
| Server.ParamsSnoc | AI-TUBE_2.0/server.js:248-250 | pushing one more filter appends its parameters |
| Server.ParamsAppend | AI-TUBE_2.0/server.js:248-250 | the parameters of two filter lists concatenate |
| Server.BuildVideoQuery | AI-TUBE_2.0/server.js:244-252 | the three `if`s that push conditions and parameters build the listed statement and parameters, with one `?` per parameter |
| Server.QueryParams | AI-TUBE_2.0/server.js:248-250 | the parameters are the isShort flag, the channel id, and `%search%` twice, each present exactly when its filter is |
| Server.StatementFrame | AI-TUBE_2.0/server.js:246-252 | the statement always starts with the SELECT and ends with ORDER BY createdAt DESC |
| Server.WhereOnlyWithFilters | AI-TUBE_2.0/server.js:251 | WHERE appears exactly when some filter is active |
| Store.Field | AI-TUBE_2.0/server.js:82-84 | `String(v \|\| '').trim()`: an absent field is empty, the field is no longer than the value, and neither end is white space |
| Store.BlankField | AI-TUBE_2.0/server.js:82-86 | a field counts as missing exactly when it is falsy or only white space |
| Store.FieldIsTrimmed | AI-TUBE_2.0/server.js:82-84 | a field as stored has no white space at either end |
| Store.Subscribers | AI-TUBE_2.0/server.js:291 | the channel's subscriber count is positive exactly when some user subscribes to it, and is at most the number of subscription rows |
| Store.SubscriberRowsWitness | AI-TUBE_2.0/server.js:291 | the channel has subscription rows exactly when some user subscribes to it |
| Store.Toggle | AI-TUBE_2.0/server.js:192-197 | toggling flips membership of that one pair and nothing else |
| Store.SubscriberRowsToggle | AI-TUBE_2.0/server.js:192-197 | a toggle adds or removes exactly the toggled row among the channel's rows |
| Store.ToggleTwice | AI-TUBE_2.0/server.js:192-197 | toggling the same subscription twice restores the table |
| Store.ToggleCount | AI-TUBE_2.0/server.js:192-197 | a subscribe raises the channel's subscriber count by one, and an unsubscribe lowers it by one |
| Store.SetReaction | AI-TUBE_2.0/server.js:307-308 | the user's row for the video is replaced by the new type, or removed for 'none'; every other row is kept |
| Store.LikeCount | AI-TUBE_2.0/server.js:282 | the count is positive exactly when some user has liked the video, and is at most the number of rows |
| Store.LikeRowsWitness | AI-TUBE_2.0/server.js:282 | the video has a 'like' row exactly when some user has liked it |
| Store.CardinalityWithout | AI-TUBE_2.0/server.js:282 | removing one row lowers a count by one exactly when that row was counted |
| Store.LikeRowsBesides | AI-TUBE_2.0/server.js:282 | like tables that differ in one row count the same 'like' rows apart from that row |
| Store.ReactionCount | AI-TUBE_2.0/server.js:305-311 | after a reaction the video's like count drops by one if the user had liked it, and rises by one if the new type is 'like' |
| Store.ReactionCountElsewhere | AI-TUBE_2.0/server.js:305-311 | a reaction to one video leaves every other video's like count alone |
| Store.ReactionIdempotent | AI-TUBE_2.0/server.js:307-308 | sending the same reaction twice is the same as sending it once |
| Store.CommentTexts | AI-TUBE_2.0/public/script.js:457-458 | one text per comment, in the order given |
| Store.CommentViews | AI-TUBE_2.0/server.js:286 | every listed comment comes from a row of that video whose author exists |
| Store.NewestFirstPairwise | AI-TUBE_2.0/server.js:286 | in a list sorted newest first, every earlier comment is at least as recent as every later one |
| Store.InsertByDate | AI-TUBE_2.0/server.js:286 | inserting a comment keeps the list newest first and adds exactly that comment |
| Store.SortNewestFirst | AI-TUBE_2.0/server.js:286 | the comments are ordered by createdAt DESC and are a permutation of the input |
| Store.DropComments | AI-TUBE_2.0/server.js:238 | exactly the comment rows of other videos remain |
| Store.DropLikes | AI-TUBE_2.0/server.js:237 | exactly the like rows of other videos remain, unchanged |
| Store.CascadeLeavesNothing | AI-TUBE_2.0/server.js:236-239 | after a delete the video has no likes and lists no comments |
| Store.NoCommentsLeft | AI-TUBE_2.0/server.js:286 | a video with no comment rows lists no comments |
| Store.NewUser | AI-TUBE_2.0/server.js:88-91 | a registered user keeps the hash and time given, and its reply view has the placeholder avatar and the 'neon-blue' theme |
| Store.ViewOf | AI-TUBE_2.0/server.js:118-121 | the reply's user carries the id, name, username and theme; its avatar is the stored one when truthy, and is never empty |
| Store.Database.constructor | AI-TUBE_2.0/server.js:40-50 | a new database has empty tables and no duplicate usernames |
| Store.Database.Authenticate | AI-TUBE_2.0/server.js:68-76 | a request passes exactly when its Authorization header is truthy and names a session; it then acts as that session's user, and is otherwise refused with 401 |
| Store.Database.Register | AI-TUBE_2.0/server.js:80-101 | 400 exactly when a trimmed field is empty; 409 exactly when the username is taken; 400 says 'Заполните все поля' and 409 says 'Логин занят'; otherwise the user is stored with the hash, placeholder avatar and default theme, a session opens, and the reply echoes them; usernames stay unique |
| Store.Database.Login | AI-TUBE_2.0/server.js:105-126 | 400 'Заполните логин и пароль' exactly when a trimmed field is empty; success exactly when a user with that username has a hash the password matches, which opens a session for that user; otherwise 401 with the same message |
| Store.Database.ToggleSubscription | AI-TUBE_2.0/server.js:189-199 | a missing channelId is 400 with nothing changed; otherwise the pair is toggled and the reply says whether it is now present |
| Store.Database.React | AI-TUBE_2.0/server.js:305-311 | with a videoId the like table becomes SetReaction of the old one; without one the table the core reads is unchanged; the reply is success either way |
| Store.Database.AddComment | AI-TUBE_2.0/server.js:313-321 | a falsy videoId or text is 400 with nothing stored; otherwise one row with the trimmed text is appended; the id given must be one no comment has yet, as a fresh uuid is |
| Store.Database.DeleteVideo | AI-TUBE_2.0/server.js:226-242 | 404 when the video or its channel is missing, and 403 when the caller does not own the channel, both changing nothing; otherwise the video, its likes and its comments are removed |
| Store.Database.Details | AI-TUBE_2.0/server.js:279-303 | likes is the number of 'like' rows; userReaction is the caller's row type; comments are the video's comments newest first; subscription state and count are for the video's channel, or false and 0 with no video |
| Store.RegisterThenLogin | AI-TUBE_2.0/server.js:80-126 | a user who has just registered can log in with the same password and gets the same user object back |
| ClientApi.GetItem | AI-TUBE_2.0/public/js/api.js:21-22 | getItem gives the stored value, or null when the key is absent |
| ClientApi.WithToken | AI-TUBE_2.0/public/js/api.js:14 | the user object gains a token property, and every other property is kept |
| ClientApi.SavedAuth | AI-TUBE_2.0/public/js/api.js:12-18 | without a token or user nothing changes; otherwise token and serialised user are stored, other keys are kept, and the user with its token becomes current |
| ClientApi.LoadedAuth | AI-TUBE_2.0/public/js/api.js:20-31 | the load succeeds exactly when a token and a user string are stored, the string is not "undefined", it parses, and strict mode does not refuse a truthy primitive; a failed parse removes only the stored user; after a failed load `currentUser` is unchanged for a parse error and is the parsed primitive when strict mode refuses it |
| ClientApi.SaveThenLoad | AI-TUBE_2.0/public/js/api.js:12-31 | after a save, a load succeeds, keeps storage, and yields the saved user with its token |
| ClientApi.StrictnessMatters | AI-TUBE_2.0/public/js/api.js:24-28 | the module and the classic-script loadAuth differ exactly when the stored user parses to a truthy primitive |
| ClientApi.NoTokenNoLoad | AI-TUBE_2.0/public/js/api.js:23 | with no stored token, the load fails and changes nothing |
| ClientApi.Decorated | AI-TUBE_2.0/public/js/api.js:59-65 | a stored token sets Authorization to "Bearer " + token; a text body without a truthy Content-Type gets JSON; every other header is kept |
| ClientApi.ContentTypeKept | AI-TUBE_2.0/public/js/api.js:62 | a non-empty Content-Type the caller set is never overwritten |
| ClientApi.NoJsonTypeWithoutText | AI-TUBE_2.0/public/js/api.js:62 | with no body or a FormData body, Content-Type is neither added nor removed |
| ClientApi.DecorateHeaders | AI-TUBE_2.0/public/js/api.js:59-65 | the in-place header updates produce Decorated |
| ClientApi.On401 | AI-TUBE_2.0/public/js/api.js:69-79 | a 401 passes through exactly for login and register paths; /auth/me logs out silently; every other path expires the session |
| ClientApi.ErrorMessage | AI-TUBE_2.0/public/js/api.js:80-84 | the error is the server's truthy `error` field, with 'Username taken' shown as 'Логин занят'; otherwise it is 'Ошибка сервера' |
| ClientApi.LogsOut | AI-TUBE_2.0/public/js/api.js:69-79 | a reply logs the page out exactly when it is a 401 on an endpoint that does not include the login or register path |
| ClientApi.LogoutMessage | AI-TUBE_2.0/public/js/api.js:72-77 | only an expired session gets the message 'Сессия истекла' |
| ClientApi.Settle | AI-TUBE_2.0/public/js/api.js:67-87 | null exactly when the call logs out; the response exactly when the status is 2xx; a network error or a failed reply rejects with its message |
| ClientApi.MeLogsOutQuietly | AI-TUBE_2.0/public/js/api.js:75-77 | a 401 on /auth/me logs out without a message |
| ClientApi.LoginErrorReachesCaller | AI-TUBE_2.0/public/js/api.js:69-84 | a 401 from login is not a logout: the caller gets the server's error |
| ClientApi.Session.constructor | AI-TUBE_2.0/public/js/api.js:6 | a page load starts with whatever localStorage and sessionStorage the browser kept, no current user and no open channel |
| ClientApi.Session.SaveAuth | AI-TUBE_2.0/public/js/api.js:12-18 | the page state becomes SavedAuth of the old one |
| ClientApi.Session.LoadAuth | AI-TUBE_2.0/public/js/api.js:20-31 | state and answer are LoadedAuth of the old state in strict mode |
| ClientApi.Session.Logout | AI-TUBE_2.0/public/js/api.js:33-56 | token and user are removed, session storage is cleared, current user and channel are null; a toast shows for a truthy message |
| ClientApi.Session.ApiFetch | AI-TUBE_2.0/public/js/api.js:58-88 | the headers sent are Decorated; the outcome is Settle; exactly the logging-out replies clear the session and toast LogoutMessage, and the others change nothing |
| Counters.NextLikeText | AI-TUBE_2.0/public/js/shorts.js:342-343 | the new counter text reads back as NextLikeCount of the count the old text reads as |
| Counters.NextLikeCount | AI-TUBE_2.0/public/js/shorts.js:342-343 | an active button adds one; an inactive one subtracts one but never goes below zero; NaN stays NaN |
| Counters.LikeThenUnlike | AI-TUBE_2.0/public/js/shorts.js:340-343 | liking then unliking puts a shown count back as it was |
| Counters.UnlikeNeverNegative | AI-TUBE_2.0/public/js/shorts.js:343 | after an unlike the counter reads as NaN or as a count of at least 0 |
| Counters.NaNSticks | AI-TUBE_2.0/public/js/shorts.js:342-343 | once the text is not a number, it stays "NaN" |
| Counters.NextCommentText | AI-TUBE_2.0/public/js/shorts.js:370-372 | the new text reads as the old count plus one, where an old NaN counts as 0 |
| Counters.CommentCountStep | AI-TUBE_2.0/public/js/shorts.js:371-372 | a posted comment raises a shown count by exactly one |
| Counters.CommentCountRestarts | AI-TUBE_2.0/public/js/shorts.js:371-372 | a counter that is not a number restarts at 1 |
| Shorts.ReplyOf | AI-TUBE_2.0/public/js/shorts.js:26-32 | only a resolved apiFetch yields details; null or a throw yields none |
| Shorts.LoadDetails | AI-TUBE_2.0/public/js/shorts.js:24-34 | a hit returns the cached details with no request; a miss requests, caches and returns a successful reply, and otherwise returns the fallback and caches nothing |
| Shorts.CacheGrows | AI-TUBE_2.0/public/js/shorts.js:25-30 | a cached entry is never changed or dropped |
| Shorts.SecondLoadIsHit | AI-TUBE_2.0/public/js/shorts.js:25 | after a successful load, every later load of that video is served from the cache |
| Shorts.FailureIsRetried | AI-TUBE_2.0/public/js/shorts.js:28-33 | a failed load caches nothing, so the next load asks again and can succeed |
| Shorts.ShortsList.constructor | AI-TUBE_2.0/public/js/shorts.js:115-195 | one item per video in order, an empty cache, and only the first item flagged detailsLoaded |
| Shorts.ShortsList.LoadVideoDetails | AI-TUBE_2.0/public/js/shorts.js:24-34 | result and new cache are LoadDetails of the old cache |
| Shorts.ShortsList.LoadFirst | AI-TUBE_2.0/public/js/shorts.js:186-195 | the first video's details are loaded through the cache |
| Shorts.ShortsList.OnVisible | AI-TUBE_2.0/public/js/shorts.js:86-90 | an unflagged item is flagged and its details loaded; a flagged one loads nothing and changes nothing |
| Shorts.SeenTwice | AI-TUBE_2.0/public/js/shorts.js:86-90 | a second sighting of an item sends no request |
| Shorts.ShortItem.constructor | AI-TUBE_2.0/public/js/shorts.js:149-176 | a new item shows both counters as "0", an inactive like button, and no comments |
| Shorts.ShortItem.ShowDetails | AI-TUBE_2.0/public/js/shorts.js:36-73 | counters show the likes and comment count; the list shows the comments' texts; like and subscribe are only switched on |
| Shorts.ShortItem.ToggleLike | AI-TUBE_2.0/public/js/shorts.js:337-345 | the request always asks for 'like'; unless apiFetch throws, the button flips and the counter follows NextLikeText |
| Shorts.ShortItem.SendComment | AI-TUBE_2.0/public/js/shorts.js:351-375 | blank input sends nothing; otherwise the trimmed text is sent; on success it is cleared, prepended, and counted; on a throw the message is toasted |
| LegacyScript.Page.constructor | AI-TUBE_2.0/public/script.js:2-3 | the page starts with no current user and no pending delete |
| LegacyScript.Page.SaveAuth | AI-TUBE_2.0/public/script.js:18-24 | the page state becomes SavedAuth of the old one |
| LegacyScript.Page.LoadAuth | AI-TUBE_2.0/public/script.js:26-37 | state and answer are LoadedAuth of the old state in non-strict mode |
| LegacyScript.Page.Logout | AI-TUBE_2.0/public/script.js:39-45 | only token, user and the current user are forgotten; a toast shows for a truthy message |
| LegacyScript.Page.ApiFetch | AI-TUBE_2.0/public/script.js:47-77 | the same headers and outcome as the module version; logging-out replies go through this script's logout |
| LegacyScript.Page.AskDelete | AI-TUBE_2.0/public/script.js:349 | the video is remembered and the confirm dialog opens |
| LegacyScript.Page.ConfirmDelete | AI-TUBE_2.0/public/script.js:615-623 | with no pending id nothing happens; otherwise DELETE is sent for it; unless apiFetch throws, 'Видео удалено' shows and the dialog closes; a throw shows its message |
| LegacyScript.ConfirmTwice | AI-TUBE_2.0/public/script.js:615-618 | the pending id is never cleared, so a second confirm deletes the same video again |
| LegacyScript.ShortCard.constructor | AI-TUBE_2.0/public/script.js:446-458 | a card built from the server's details has an active like button exactly when the user's reaction is 'like', shows the details' like count, an empty input, and the comments' texts in order |
| LegacyScript.ShortCard.ToggleShortLike | AI-TUBE_2.0/public/script.js:479-487 | the request always asks for 'like'; unless apiFetch throws, the button flips and the counter follows NextLikeText |
| LegacyScript.ShortCard.SendShortComment | AI-TUBE_2.0/public/script.js:491-503 | blank input sends nothing; otherwise the trimmed text is sent, and on success the input is cleared and the comment prepended, with no counter |
| EndToEnd.ClientTokenReachesServer | AI-TUBE_2.0/server.js:71 | the Authorization header the client sends hands the middleware exactly the stored token |
| EndToEnd.StoredSessionAuthenticates | AI-TUBE_2.0/server.js:68-76 | a request from a page holding a session's token acts as that user, and any other token gets 401 |
| EndToEnd.WrongCredentialsReachPage | AI-TUBE_2.0/server.js:105-115 | logging in through Login with filled-in credentials that match no user gives 401 'Неверные данные' with no session opened, and apiFetch on the login path rejects with that text rather than expiring a session |
| EndToEnd.TakenUsernameReachesPage | AI-TUBE_2.0/server.js:91-94 | registering a taken username through Register gives 409 'Логин занят' with no user or session added, and apiFetch on the register path rejects with that same text |
| EndToEnd.TwoTapsOnShortLike | AI-TUBE_2.0/public/js/shorts.js:337-345 | two taps through ToggleLike and React: the button is flipped after the first and back after the second, the server holds the like after both, and a like the user already had is not taken off the count |
| EndToEnd.ShownLikesAreServerCount | AI-TUBE_2.0/server.js:282-283 | the likes a short shows after loading are the server's count of 'like' rows |

## Left out

- **Outside effects.** File-system work, the HTTP and HTTPS listeners, static file
  serving, multer uploads and the SQLite driver are not modelled. Every handler acts
  on the in-memory tables at once, so callback ordering and failed SQL statements
  (their 500 replies) are left out.
- **Opaque values.** bcrypt, uuid and `Date.now()` become parameters. The hash is a
  function, the password check is a predicate, fresh ids are arguments that must be
  unused, and the time is a number.
- **Ordering.** Concurrent requests and `async` interleaving on the page are not
  modelled: each handler runs to completion. Where a caller only awaits
  `apiFetch`, the method takes the settled outcome as an argument.
- **JSON.** `JSON.parse` and `JSON.stringify` are function parameters. The user
  object is a map from property names to strings, and a parsed value is null, an
  object, or a primitive that is either truthy or not.
- **Other state.** The `createdAt` columns of sessions and subscriptions are never
  read, so they are not stored. localStorage is a map from key names to strings;
  the auth code writes only `token` and `user`, and every other key is kept.
- **DOM details.** Only what the handlers write into the DOM is modelled: counters,
  the like button, the comment list as texts in order, the subscribed flag and the
  delete dialog.
  - Left out: the markup, the "Нет комментариев" and "Загрузка..." placeholders,
    styling, video playback and the lava-lamp effect.
  - Left out: the `if (subBtn)` and `if (likesEl)` checks for missing elements.
  - Left out: the `loadMyChannel()` refresh after a delete, and the screen switch
    and channel-view reset in `logout`.
- **Aliasing.** saveAuth writes `token` into the caller's user object. The model
  returns the updated copy instead. Nothing else in the core keeps that object.
- **Other routes.** Other server routes (profile update, account delete, channels,
  uploads, subscription listing, `/auth/me`) and the client modules outside the
  core (`auth.js`, `main.js`, `videos.js`, `channel.js`, `ui.js`, `player.js`) are
  not part of this model.
- Server.Stream: the 500 for a refused position follows Node's checks of `start`
  and `end`. A start or end past the end of a non-empty file is accepted by Node
  and gives a short or empty body. The model keeps the 206 head for it, and the
  bytes sent are not modelled.
- Store.Database.React: a request without `videoId` runs the DELETE with a NULL
  videoId, which matches no row, and then (unless the type is 'none') inserts a
  row with a NULL videoId. SQLite lets such rows pile up despite the primary key.
  Every query in the core compares `videoId = ?`, which never matches NULL, so no
  handler reads them; the model does not store them and keeps the table as it was.
- **`parseInt` without a radix.** shorts.js:342, shorts.js:371 and script.js:484
  call `parseInt` without a radix, so "0x1f" would read as hexadecimal. The model
  reads every counter as decimal, which agrees for every text the page itself
  writes into a counter.
- **Number range.** Integers are unbounded. Precision loss above 2^53 and the
  exponent notation `String` uses for very large numbers are not modelled.
- **Non-string JSON fields.** A request field is a string or absent. `String(v || '')`
  of a number, a boolean or an object in the request body is not modelled.
- **Header aliasing.** apiFetch writes `Authorization` and `Content-Type` into
  the caller's `options.headers` object. The model returns the new map instead,
  and no caller in the core reads its headers object again.
- **Comment authors.** The comment lists on the page are modelled as texts. The
  author names shown beside them are left out.
- **Legacy comment count.** A legacy short card shows `details.comments.length`
  once and never updates it, so the card has no comment counter field.
- Store.CommentViews: states where each listed comment comes from, but not that
  every comment row of the video with an existing author is listed. The count
  facts that depend on this are stated through Store.NoCommentsLeft and
  Store.Database.Details instead.
